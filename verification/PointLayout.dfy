/** Which bytes of a point are encoded: transport/draco_pointcloud_codec.cpp, lines 25-218. */
module PointLayout {
  import opened Common

  const INT8: Byte := 1
  const UINT8: Byte := 2
  const INT16: Byte := 3
  const UINT16: Byte := 4
  const INT32: Byte := 5
  const UINT32: Byte := 6
  const FLOAT32: Byte := 7
  const FLOAT64: Byte := 8

  datatype PointField = PointField(name: string, offset: UInt32, datatype_: Byte, count: UInt32)

  function DatatypeSize(t: Byte): (size: nat)
    ensures size == if t == 0 || t > 8 then 0 else if t <= 2 then 1 else if t <= 4 then 2 else if t <= 7 then 4 else 8
  {
    if t == INT8 || t == UINT8 then 1
    else if t == INT16 || t == UINT16 then 2
    else if t == INT32 || t == UINT32 || t == FLOAT32 then 4
    else if t == FLOAT64 then 8
    else 0
  }

  function Size(f: PointField): nat {
    DatatypeSize(f.datatype_) * f.count
  }

  predicate FieldFits(f: PointField, pointStep: nat) {
    && DatatypeSize(f.datatype_) != 0
    && f.count != 0
    && f.offset <= pointStep
    && Size(f) <= pointStep - f.offset
  }

  predicate Covers(f: PointField, byte: nat) {
    f.offset <= byte < f.offset + Size(f)
  }

  predicate SpansOverlap(f: PointField, g: PointField) {
    f.offset < g.offset + Size(g) && g.offset < f.offset + Size(f)
  }

  // The overlap test is exactly the sharing of a byte.
  lemma OverlapIsSharing(f: PointField, g: PointField)
    requires Size(f) > 0 && Size(g) > 0
    ensures SpansOverlap(f, g) <==> exists byte: nat :: Covers(f, byte) && Covers(g, byte)
  {
    if SpansOverlap(f, g) {
      var byte := Max(f.offset, g.offset);
      assert Covers(f, byte) && Covers(g, byte);
    }
  }

  // The first field with the given name; fields are told apart by index, as by address.
  function FindField(fields: seq<PointField>, name: string): (found: Option<nat>)
    ensures found.Some? ==> found.value < |fields| && fields[found.value].name == name
    ensures found.Some? ==> forall i :: 0 <= i < found.value ==> fields[i].name != name
    ensures found.None? ==> forall i :: 0 <= i < |fields| ==> fields[i].name != name
  {
    if fields == [] then None
    else if fields[0].name == name then Some(0)
    else
      var rest := FindField(fields[1..], name);
      if rest.None? then None else Some(rest.value + 1)
  }

  predicate IsScalar(fields: seq<PointField>, found: Option<nat>, types: set<Byte>, pointStep: nat)
    requires found.Some? ==> found.value < |fields|
  {
    && found.Some?
    && fields[found.value].datatype_ in types
    && fields[found.value].count == 1
    && FieldFits(fields[found.value], pointStep)
  }

  datatype ColorLayout =
    | NoColor
    | Packed(field: nat)
    | Separate(red: nat, green: nat, blue: nat, alpha: Option<nat>)

  // Fields by index into the message's field list
  datatype Layout = Layout(x: nat, y: nat, z: nat, color: ColorLayout, mask: seq<bool>)

  // The first field of that name can hold a colour packed into a word.
  predicate PackedQualifies(fields: seq<PointField>, name: string, pointStep: nat) {
    IsScalar(fields, FindField(fields, name), {FLOAT32, UINT32}, pointStep)
  }

  predicate ByteQualifies(fields: seq<PointField>, name: string, pointStep: nat) {
    IsScalar(fields, FindField(fields, name), {UINT8}, pointStep)
  }

  // Bytes "r", "g" and "b", and "a" too if there is an "a"
  predicate SeparateQualifies(fields: seq<PointField>, pointStep: nat) {
    && ByteQualifies(fields, "r", pointStep) && ByteQualifies(fields, "g", pointStep)
    && ByteQualifies(fields, "b", pointStep)
    && (FindField(fields, "a").Some? ==> ByteQualifies(fields, "a", pointStep))
  }

  // The fields chosen exist, fit, and are scalars of the required types.
  predicate FieldsFit(fields: seq<PointField>, c: ColorLayout, pointStep: nat) {
    match c
    case NoColor => true
    case Packed(f) => f < |fields| && IsScalar(fields, Some(f), {FLOAT32, UINT32}, pointStep)
    case Separate(r, g, b, a) =>
      && r < |fields| && IsScalar(fields, Some(r), {UINT8}, pointStep)
      && g < |fields| && IsScalar(fields, Some(g), {UINT8}, pointStep)
      && b < |fields| && IsScalar(fields, Some(b), {UINT8}, pointStep)
      && (a.Some? ==> a.value < |fields| && IsScalar(fields, a, {UINT8}, pointStep))
  }

  function ChooseColor(fields: seq<PointField>, pointStep: nat): (c: ColorLayout)
    ensures PackedQualifies(fields, "rgba", pointStep) ==> c == Packed(FindField(fields, "rgba").value)
    ensures !PackedQualifies(fields, "rgba", pointStep) && PackedQualifies(fields, "rgb", pointStep)
        ==> c == Packed(FindField(fields, "rgb").value)
    ensures c.Separate? <==> && !PackedQualifies(fields, "rgba", pointStep)
                             && !PackedQualifies(fields, "rgb", pointStep) && SeparateQualifies(fields, pointStep)
    ensures c.Separate? ==> && FindField(fields, "r") == Some(c.red) && FindField(fields, "g") == Some(c.green)
                            && FindField(fields, "b") == Some(c.blue) && FindField(fields, "a") == c.alpha
    ensures c == NoColor <==> && !PackedQualifies(fields, "rgba", pointStep)
                              && !PackedQualifies(fields, "rgb", pointStep) && !SeparateQualifies(fields, pointStep)
    ensures forall k :: 0 <= k < |ColorFields(c)| ==> ColorFields(c)[k] < |fields|
    ensures FieldsFit(fields, c, pointStep)
  {
    var packed := FindPacked(fields, pointStep);
    if packed.Some? then Packed(packed.value) else ChooseSeparate(fields, pointStep)
  }

  // "rgba" if it is a packed colour, else "rgb" if it is
  function FindPacked(fields: seq<PointField>, pointStep: nat): (f: Option<nat>)
    ensures f.None? <==> !PackedQualifies(fields, "rgba", pointStep) && !PackedQualifies(fields, "rgb", pointStep)
    ensures f.Some? ==>
              f == FindField(fields, if PackedQualifies(fields, "rgba", pointStep) then "rgba" else "rgb")
    ensures f.Some? ==> f.value < |fields| && IsScalar(fields, f, {FLOAT32, UINT32}, pointStep)
  {
    var rgba, rgb := FindField(fields, "rgba"), FindField(fields, "rgb");
    if IsScalar(fields, rgba, {FLOAT32, UINT32}, pointStep) then rgba
    else if IsScalar(fields, rgb, {FLOAT32, UINT32}, pointStep) then rgb
    else None
  }

  function ChooseSeparate(fields: seq<PointField>, pointStep: nat): (c: ColorLayout)
    ensures !c.Packed? && (c.Separate? <==> SeparateQualifies(fields, pointStep))
    ensures c.Separate? ==> && FindField(fields, "r") == Some(c.red) && FindField(fields, "g") == Some(c.green)
                            && FindField(fields, "b") == Some(c.blue) && FindField(fields, "a") == c.alpha
    ensures FieldsFit(fields, c, pointStep)
  {
    var r, g, b, a := FindField(fields, "r"), FindField(fields, "g"), FindField(fields, "b"), FindField(fields, "a");
    if IsScalar(fields, r, {UINT8}, pointStep) && IsScalar(fields, g, {UINT8}, pointStep)
       && IsScalar(fields, b, {UINT8}, pointStep)
       && (a.None? || IsScalar(fields, a, {UINT8}, pointStep)) then
      Separate(r.value, g.value, b.value, a)
    else NoColor
  }

  function ColorFields(c: ColorLayout): seq<nat> {
    match c
    case NoColor => []
    case Packed(f) => [f]
    case Separate(r, g, b, a) => [r, g, b] + (if a.Some? then [a.value] else [])
  }

  function EncodedFields(x: nat, y: nat, z: nat, c: ColorLayout): seq<nat> {
    [x, y, z] + ColorFields(c)
  }

  // byte lies in one of the listed fields
  predicate InFields(fields: seq<PointField>, list: seq<nat>, byte: nat)
    requires forall k :: 0 <= k < |list| ==> list[k] < |fields|
  {
    exists k :: 0 <= k < |list| && Covers(fields[list[k]], byte)
  }

  ghost predicate Disjoint(fields: seq<PointField>, list: seq<nat>)
    requires forall k :: 0 <= k < |list| ==> list[k] < |fields|
  {
    forall i, j :: 0 <= i < j < |list| ==> !SpansOverlap(fields[list[i]], fields[list[j]])
  }

  // No other field of the message reaches into an encoded one
  ghost predicate SideFieldsClear(fields: seq<PointField>, list: seq<nat>)
    requires forall k :: 0 <= k < |list| ==> list[k] < |fields|
  {
    forall i, k :: 0 <= i < |fields| && i !in list && 0 <= k < |list|
      ==> !SpansOverlap(fields[i], fields[list[k]])
  }

  predicate HasPosition(fields: seq<PointField>, pointStep: nat) {
    && IsScalar(fields, FindField(fields, "x"), {FLOAT32}, pointStep)
    && IsScalar(fields, FindField(fields, "y"), {FLOAT32}, pointStep)
    && IsScalar(fields, FindField(fields, "z"), {FLOAT32}, pointStep)
  }

  function EncodedList(fields: seq<PointField>, pointStep: nat): (list: seq<nat>)
    requires HasPosition(fields, pointStep)
    ensures forall k :: 0 <= k < |list| ==> list[k] < |fields|
  {
    EncodedFields(FindField(fields, "x").value, FindField(fields, "y").value,
                  FindField(fields, "z").value, ChooseColor(fields, pointStep))
  }

  ghost predicate Acceptable(fields: seq<PointField>, pointStep: nat) {
    && pointStep > 0
    && (forall i :: 0 <= i < |fields| ==> FieldFits(fields[i], pointStep))
    && HasPosition(fields, pointStep)
    && Disjoint(fields, EncodedList(fields, pointStep))
    && SideFieldsClear(fields, EncodedList(fields, pointStep))
  }

  function MaskOf(fields: seq<PointField>, list: seq<nat>, pointStep: nat): seq<bool>
    requires forall k :: 0 <= k < |list| ==> list[k] < |fields|
  {
    seq(pointStep, byte requires 0 <= byte < pointStep => InFields(fields, list, byte))
  }

  function LayoutOf(fields: seq<PointField>, pointStep: nat): (l: Layout)
    requires HasPosition(fields, pointStep)
    ensures |l.mask| == pointStep
  {
    var list := EncodedList(fields, pointStep);
    Layout(FindField(fields, "x").value, FindField(fields, "y").value, FindField(fields, "z").value,
           ChooseColor(fields, pointStep), MaskOf(fields, list, pointStep))
  }

  method MarkField(f: PointField, mask: array<bool>) returns (ok: bool)
    modifies mask
    ensures ok <==> FieldFits(f, mask.Length)
    ensures forall b :: 0 <= b < mask.Length ==> mask[b] == (old(mask[b]) || (ok && Covers(f, b)))
  {
    if !FieldFits(f, mask.Length) {
      return false;
    }
    var end := f.offset + DatatypeSize(f.datatype_) * f.count;
    for b := f.offset to end
      invariant forall i :: 0 <= i < mask.Length ==>
                  mask[i] == (old(mask[i]) || f.offset <= i < b)
    {
      mask[b] := true;
    }
    ok := true;
  }

  method AnyPairOverlaps(fields: seq<PointField>, list: seq<nat>) returns (overlap: bool)
    requires forall k :: 0 <= k < |list| ==> list[k] < |fields|
    ensures overlap <==> !Disjoint(fields, list)
  {
    for i := 0 to |list|
      invariant forall a, b :: 0 <= a < i && a < b < |list|
                  ==> !SpansOverlap(fields[list[a]], fields[list[b]])
    {
      for j := i + 1 to |list|
        invariant forall b :: i < b < j ==> !SpansOverlap(fields[list[i]], fields[list[b]])
      {
        if SpansOverlap(fields[list[i]], fields[list[j]]) {
          return true;
        }
      }
    }
    overlap := false;
  }

  method AnySideFieldOverlaps(fields: seq<PointField>, list: seq<nat>) returns (overlap: bool)
    requires forall k :: 0 <= k < |list| ==> list[k] < |fields|
    ensures overlap <==> !SideFieldsClear(fields, list)
  {
    for i := 0 to |fields|
      invariant forall a, k :: 0 <= a < i && a !in list && 0 <= k < |list|
                  ==> !SpansOverlap(fields[a], fields[list[k]])
    {
      if i in list {
        continue;
      }
      for j := 0 to |list|
        invariant forall k :: 0 <= k < j ==> !SpansOverlap(fields[i], fields[list[k]])
      {
        if SpansOverlap(fields[i], fields[list[j]]) {
          return true;
        }
      }
    }
    overlap := false;
  }

  method MarkFields(fields: seq<PointField>, list: seq<nat>, pointStep: nat) returns (mask: seq<bool>)
    requires forall k :: 0 <= k < |list| ==> list[k] < |fields| && FieldFits(fields[list[k]], pointStep)
    ensures mask == MaskOf(fields, list, pointStep)
  {
    var bits := new bool[pointStep](_ => false);
    for k := 0 to |list|
      invariant forall b :: 0 <= b < pointStep ==>
                  (bits[b] <==> exists i :: 0 <= i < k && Covers(fields[list[i]], b))
    {
      var marked := MarkField(fields[list[k]], bits);
      if !marked {
        assert false;
      }
    }
    mask := bits[..];
  }

  method AllFieldsFit(fields: seq<PointField>, pointStep: nat) returns (fit: bool)
    ensures fit <==> forall i :: 0 <= i < |fields| ==> FieldFits(fields[i], pointStep)
  {
    for i := 0 to |fields|
      invariant forall k :: 0 <= k < i ==> FieldFits(fields[k], pointStep)
    {
      if !FieldFits(fields[i], pointStep) {
        return false;
      }
    }
    fit := true;
  }

  // The overlap tests, of x, y and z first; list begins with these
  method EncodedApart(fields: seq<PointField>, list: seq<nat>, x: nat, y: nat, z: nat) returns (apart: bool)
    requires forall k :: 0 <= k < |list| ==> list[k] < |fields|
    requires |list| >= 3 && list[0] == x && list[1] == y && list[2] == z
    ensures apart <==> Disjoint(fields, list) && SideFieldsClear(fields, list)
  {
    if SpansOverlap(fields[x], fields[y]) || SpansOverlap(fields[x], fields[z])
       || SpansOverlap(fields[y], fields[z]) {
      return false;
    }
    var overlap := AnyPairOverlaps(fields, list);
    if overlap {
      return false;
    }
    overlap := AnySideFieldOverlaps(fields, list);
    apart := !overlap;
  }

  // The mask of the encoded fields, unless they overlap or another field reaches into them
  method SeparateMask(fields: seq<PointField>, x: nat, y: nat, z: nat, color: ColorLayout, pointStep: nat)
    returns (mask: Option<seq<bool>>)
    requires forall i :: 0 <= i < |fields| ==> FieldFits(fields[i], pointStep)
    requires forall k :: 0 <= k < |EncodedFields(x, y, z, color)| ==> EncodedFields(x, y, z, color)[k] < |fields|
    ensures var list := EncodedFields(x, y, z, color);
            && (mask.Some? <==> Disjoint(fields, list) && SideFieldsClear(fields, list))
            && (mask.Some? ==> mask.value == MaskOf(fields, list, pointStep))
  {
    var list := EncodedFields(x, y, z, color);
    var apart := EncodedApart(fields, list, x, y, z);
    if !apart {
      return None;
    }
    var marked := MarkFields(fields, list, pointStep);
    mask := Some(marked);
  }

  method ParseLayout(fields: seq<PointField>, pointStep: nat) returns (layout: Option<Layout>)
    ensures layout.Some? <==> Acceptable(fields, pointStep)
    ensures layout.Some? ==> layout.value == LayoutOf(fields, pointStep)
  {
    if pointStep == 0 {
      return None;
    }
    var fit := AllFieldsFit(fields, pointStep);
    if !fit {
      return None;
    }
    var x, y, z := FindField(fields, "x"), FindField(fields, "y"), FindField(fields, "z");
    if !IsScalar(fields, x, {FLOAT32}, pointStep) || !IsScalar(fields, y, {FLOAT32}, pointStep)
       || !IsScalar(fields, z, {FLOAT32}, pointStep) {
      return None;
    }
    var color := ChooseColor(fields, pointStep);
    assert EncodedFields(x.value, y.value, z.value, color) == EncodedList(fields, pointStep);
    var mask := SeparateMask(fields, x.value, y.value, z.value, color, pointStep);
    if mask.Some? {
      layout := Some(Layout(x.value, y.value, z.value, color, mask.value));
    } else {
      layout := None;
    }
  }

  // ----- Acceptance in bytes -----

  lemma FitsInNumbers(f: PointField, pointStep: nat)
    ensures FieldFits(f, pointStep)
       <==> (&& 1 <= f.datatype_ <= 8 && f.count > 0
             && f.offset + f.count * (if f.datatype_ <= 2 then 1 else if f.datatype_ <= 4 then 2
                                      else if f.datatype_ <= 7 then 4 else 8) <= pointStep)
  {
  }

  lemma Float32Scalar(fields: seq<PointField>, pointStep: nat)
    ensures HasPosition(fields, pointStep)
       <==> forall name <- ["x", "y", "z"] ::
              && FindField(fields, name).Some?
              && var f := fields[FindField(fields, name).value];
                 f.datatype_ == 7 && f.count == 1 && f.offset + 4 <= pointStep
  {
    var names := ["x", "y", "z"];
    assert names[0] in names && names[1] in names && names[2] in names;
  }

  // The first field of this name is a scalar of one of these types that fits.
  predicate ScalarField(fields: seq<PointField>, name: string, types: set<int>, bytes: nat, pointStep: nat) {
    var found := FindField(fields, name);
    && found.Some? && fields[found.value].datatype_ as int in types
    && fields[found.value].count == 1 && fields[found.value].offset + bytes <= pointStep
  }

  // A packed colour is an unsigned word or a float, a separate channel a byte.
  lemma ColorInNumbers(fields: seq<PointField>, name: string, pointStep: nat)
    ensures PackedQualifies(fields, name, pointStep) <==> ScalarField(fields, name, {6, 7}, 4, pointStep)
    ensures ByteQualifies(fields, name, pointStep) <==> ScalarField(fields, name, {2}, 1, pointStep)
  {
  }

  lemma NamesDiffer(fields: seq<PointField>, a: string, b: string)
    requires a != b && FindField(fields, a).Some? && FindField(fields, b).Some?
    ensures FindField(fields, a) != FindField(fields, b)
  {
  }

  lemma PositionDistinct(fields: seq<PointField>, pointStep: nat)
    requires HasPosition(fields, pointStep)
    ensures FindField(fields, "x") != FindField(fields, "y") && FindField(fields, "x") != FindField(fields, "z")
    ensures FindField(fields, "y") != FindField(fields, "z")
  {
    assert "x"[0] != "y"[0] && "x"[0] != "z"[0] && "y"[0] != "z"[0];
    NamesDiffer(fields, "x", "y");
    NamesDiffer(fields, "x", "z");
    NamesDiffer(fields, "y", "z");
  }

  predicate IsPositionName(name: string) {
    name == "x" || name == "y" || name == "z"
  }

  // Distinct indices of fields that are not coordinates
  ghost predicate ApartFromPosition(fields: seq<PointField>, list: seq<nat>) {
    && (forall i, j :: 0 <= i < j < |list| ==> list[i] != list[j])
    && (forall i :: 0 <= i < |list| ==> list[i] < |fields| && !IsPositionName(fields[list[i]].name))
  }

  lemma PackedApart(fields: seq<PointField>, f: nat)
    requires f < |fields| && |fields[f].name| >= 3
    ensures ApartFromPosition(fields, [f])
  {
    assert |"x"| == 1 && |"y"| == 1 && |"z"| == 1;
  }

  lemma ChannelsApart(fields: seq<PointField>, list: seq<nat>)
    requires |list| <= 4 && forall i :: 0 <= i < |list| ==> list[i] < |fields|
    requires forall i :: 0 <= i < |list| ==> fields[list[i]].name == ["rgba"[i]]
    ensures ApartFromPosition(fields, list)
  {
    assert "x" == ['x'] && "y" == ['y'] && "z" == ['z'];
    forall i, j | 0 <= i < j < |list|
      ensures list[i] != list[j]
    {
      assert fields[list[i]].name[0] == "rgba"[i] != "rgba"[j] == fields[list[j]].name[0];
    }
    forall i | 0 <= i < |list|
      ensures !IsPositionName(fields[list[i]].name)
    {
      assert fields[list[i]].name[0] == "rgba"[i];
    }
  }

  lemma SeparateNames(fields: seq<PointField>, pointStep: nat, list: seq<nat>)
    requires ChooseColor(fields, pointStep).Separate? && list == ColorFields(ChooseColor(fields, pointStep))
    ensures 3 <= |list| <= 4
    ensures forall i :: 0 <= i < |list| ==> list[i] < |fields| && fields[list[i]].name == ["rgba"[i]]
  {
    assert "r" == ['r'] && "g" == ['g'] && "b" == ['b'] && "a" == ['a'];
  }

  lemma ColorDistinct(fields: seq<PointField>, pointStep: nat)
    ensures ApartFromPosition(fields, ColorFields(ChooseColor(fields, pointStep)))
  {
    match ChooseColor(fields, pointStep)
    case NoColor =>
    case Packed(f) =>
      assert |"rgba"| == 4 && |"rgb"| == 3;
      PackedApart(fields, f);
    case Separate(r, g, b, a) =>
      var list := ColorFields(ChooseColor(fields, pointStep));
      SeparateNames(fields, pointStep, list);
      ChannelsApart(fields, list);
  }

  lemma EncodedDistinct(fields: seq<PointField>, pointStep: nat)
    requires HasPosition(fields, pointStep)
    ensures var list := EncodedList(fields, pointStep);
            forall i, j :: 0 <= i < j < |list| ==> list[i] != list[j]
  {
    PositionDistinct(fields, pointStep);
    ColorDistinct(fields, pointStep);
    var x, y, z := FindField(fields, "x").value, FindField(fields, "y").value, FindField(fields, "z").value;
    var colors := ColorFields(ChooseColor(fields, pointStep));
    assert IsPositionName(fields[x].name) && IsPositionName(fields[y].name) && IsPositionName(fields[z].name);
    AppendDistinct(x, y, z, colors);
  }

  lemma AppendDistinct(x: nat, y: nat, z: nat, rest: seq<nat>)
    requires x != y && x != z && y != z && x !in rest && y !in rest && z !in rest
    requires forall i, j :: 0 <= i < j < |rest| ==> rest[i] != rest[j]
    ensures var list := [x, y, z] + rest;
            forall i, j :: 0 <= i < j < |list| ==> list[i] != list[j]
  {
  }

  ghost predicate ShareNoByte(f: PointField, g: PointField) {
    forall byte: nat :: !(Covers(f, byte) && Covers(g, byte))
  }

  // Accepted are exactly the field lists that fit, have a position, and whose encoded fields
  // share no byte with any other field.
  lemma AcceptableInBytes(fields: seq<PointField>, pointStep: nat)
    ensures Acceptable(fields, pointStep)
       <==> (&& pointStep > 0 && (forall i :: 0 <= i < |fields| ==> FieldFits(fields[i], pointStep))
             && HasPosition(fields, pointStep)
             && forall i, j :: i in EncodedList(fields, pointStep) && 0 <= j < |fields| && j != i ==>
                  ShareNoByte(fields[i], fields[j]))
  {
    if HasPosition(fields, pointStep) && forall i :: 0 <= i < |fields| ==> FieldFits(fields[i], pointStep) {
      EncodedDistinct(fields, pointStep);
      SeparateInBytes(fields, EncodedList(fields, pointStep), pointStep);
    }
  }

  lemma SeparateInBytes(fields: seq<PointField>, list: seq<nat>, pointStep: nat)
    requires forall i :: 0 <= i < |fields| ==> FieldFits(fields[i], pointStep)
    requires forall k :: 0 <= k < |list| ==> list[k] < |fields|
    requires forall i, j :: 0 <= i < j < |list| ==> list[i] != list[j]
    ensures Disjoint(fields, list) && SideFieldsClear(fields, list)
       <==> forall i, j :: i in list && 0 <= j < |fields| && j != i ==> ShareNoByte(fields[i], fields[j])
  {
    forall i, j | 0 <= i < |fields| && 0 <= j < |fields|
      ensures SpansOverlap(fields[i], fields[j]) <==> !ShareNoByte(fields[i], fields[j])
    {
      SizePositive(fields[i], pointStep);
      SizePositive(fields[j], pointStep);
      OverlapIsSharing(fields[i], fields[j]);
    }
    if Disjoint(fields, list) && SideFieldsClear(fields, list) {
      forall i, j | i in list && 0 <= j < |fields| && j != i
        ensures !SpansOverlap(fields[i], fields[j])
      {
        var p :| 0 <= p < |list| && list[p] == i;
        if j in list {
          var q :| 0 <= q < |list| && list[q] == j;
          assert p < q || q < p;
        }
      }
    }
  }

  lemma SizePositive(f: PointField, pointStep: nat)
    requires FieldFits(f, pointStep)
    ensures Size(f) > 0
  {
  }

  // ----- How many bytes are encoded -----

  function CountTrue(mask: seq<bool>): nat {
    if mask == [] then 0 else CountTrue(DropLast(mask)) + if Last(mask) then 1 else 0
  }

  function CountFalse(mask: seq<bool>): nat {
    if mask == [] then 0 else CountFalse(DropLast(mask)) + if Last(mask) then 0 else 1
  }

  lemma {:induction false} CountsPartition(mask: seq<bool>)
    ensures CountTrue(mask) + CountFalse(mask) == |mask|
  {
    if mask != [] {
      CountsPartition(DropLast(mask));
    }
  }

  lemma {:induction false} CountPointwise(a: seq<bool>, b: seq<bool>, c: seq<bool>)
    requires |a| == |b| == |c|
    requires forall i :: 0 <= i < |a| ==> !(a[i] && b[i]) && (c[i] <==> a[i] || b[i])
    ensures CountTrue(c) == CountTrue(a) + CountTrue(b)
  {
    if a != [] {
      CountPointwise(DropLast(a), DropLast(b), DropLast(c));
    }
  }

  lemma {:induction false} CountInterval(mask: seq<bool>, lo: nat, hi: nat)
    requires lo <= hi
    requires forall i :: 0 <= i < |mask| ==> (mask[i] <==> lo <= i < hi)
    ensures CountTrue(mask) == if |mask| <= lo then 0 else Min(|mask|, hi) - lo
  {
    if mask != [] {
      CountInterval(DropLast(mask), lo, hi);
    }
  }

  function TotalSize(fields: seq<PointField>, list: seq<nat>): nat
    requires forall k :: 0 <= k < |list| ==> list[k] < |fields|
  {
    if list == [] then 0 else TotalSize(fields, DropLast(list)) + Size(fields[Last(list)])
  }

  // A byte of disjoint fields lies in the last of them or in the others, never both.
  lemma LastField(fields: seq<PointField>, list: seq<nat>, byte: nat)
    requires list != [] && (forall k :: 0 <= k < |list| ==> list[k] < |fields|) && Disjoint(fields, list)
    ensures InFields(fields, list, byte)
       <==> InFields(fields, DropLast(list), byte) || Covers(fields[Last(list)], byte)
    ensures !(InFields(fields, DropLast(list), byte) && Covers(fields[Last(list)], byte))
  {
    assert forall k :: 0 <= k < |list| - 1 ==> DropLast(list)[k] == list[k];
    if Covers(fields[Last(list)], byte) {
      assert Covers(fields[list[|list| - 1]], byte);
    }
  }

  // Disjoint fields mark as many bytes as their sizes add up to.
  lemma {:induction false} MarkedBytes(fields: seq<PointField>, list: seq<nat>, pointStep: nat)
    requires forall k :: 0 <= k < |list| ==> list[k] < |fields| && FieldFits(fields[list[k]], pointStep)
    requires Disjoint(fields, list)
    ensures CountTrue(MaskOf(fields, list, pointStep)) == TotalSize(fields, list)
  {
    var all := MaskOf(fields, list, pointStep);
    if list == [] {
      CountInterval(all, 0, 0);
    } else {
      var f := fields[Last(list)];
      MarkedBytes(fields, DropLast(list), pointStep);
      var before := MaskOf(fields, DropLast(list), pointStep);
      var last := seq(pointStep, byte requires 0 <= byte < pointStep => Covers(f, byte));
      CountInterval(last, f.offset, f.offset + Size(f));
      forall i | 0 <= i < pointStep
        ensures !(before[i] && last[i]) && (all[i] <==> before[i] || last[i])
      {
        LastField(fields, list, i);
      }
      CountPointwise(before, last, all);
    }
  }

  function ColorBytes(c: ColorLayout): nat {
    match c
    case NoColor => 0
    case Packed(_) => 4
    case Separate(_, _, _, a) => if a.Some? then 4 else 3
  }

  lemma EncodedBytesPerPoint(fields: seq<PointField>, pointStep: nat)
    requires Acceptable(fields, pointStep)
    ensures CountTrue(LayoutOf(fields, pointStep).mask) == 12 + ColorBytes(ChooseColor(fields, pointStep))
    ensures CountFalse(LayoutOf(fields, pointStep).mask)
         == pointStep - 12 - ColorBytes(ChooseColor(fields, pointStep))
  {
    var list := EncodedList(fields, pointStep);
    MarkedBytes(fields, list, pointStep);
    CountsPartition(MaskOf(fields, list, pointStep));
    PositionSizes(fields, pointStep);
    EncodedSize(fields, FindField(fields, "x").value, FindField(fields, "y").value, FindField(fields, "z").value,
                ChooseColor(fields, pointStep), pointStep);
  }

  lemma PositionSizes(fields: seq<PointField>, pointStep: nat)
    requires HasPosition(fields, pointStep)
    ensures Size(fields[FindField(fields, "x").value]) == 4
    ensures Size(fields[FindField(fields, "y").value]) == 4
    ensures Size(fields[FindField(fields, "z").value]) == 4
  {
  }

  lemma EncodedSize(fields: seq<PointField>, x: nat, y: nat, z: nat, c: ColorLayout, pointStep: nat)
    requires x < |fields| && y < |fields| && z < |fields| && FieldsFit(fields, c, pointStep)
    requires Size(fields[x]) == Size(fields[y]) == Size(fields[z]) == 4
    requires forall k :: 0 <= k < |EncodedFields(x, y, z, c)| ==> EncodedFields(x, y, z, c)[k] < |fields|
    requires forall k :: 0 <= k < |ColorFields(c)| ==> ColorFields(c)[k] < |fields|
    ensures TotalSize(fields, EncodedFields(x, y, z, c)) == 12 + ColorBytes(c)
  {
    TotalSizeAppend(fields, [x, y, z], ColorFields(c));
    ThreeSizes(fields, x, y, z);
    ColorSize(fields, c, pointStep);
  }

  lemma {:induction false} TotalSizeAppend(fields: seq<PointField>, a: seq<nat>, b: seq<nat>)
    requires forall k :: 0 <= k < |a| ==> a[k] < |fields|
    requires forall k :: 0 <= k < |b| ==> b[k] < |fields|
    ensures TotalSize(fields, a + b) == TotalSize(fields, a) + TotalSize(fields, b)
  {
    if b == [] {
      assert a + b == a;
    } else {
      TotalSizeAppend(fields, a, DropLast(b));
      assert DropLast(a + b) == a + DropLast(b);
    }
  }

  lemma ThreeSizes(fields: seq<PointField>, x: nat, y: nat, z: nat)
    requires x < |fields| && y < |fields| && z < |fields|
    ensures TotalSize(fields, [x, y, z]) == Size(fields[x]) + Size(fields[y]) + Size(fields[z])
  {
    assert DropLast([x, y, z]) == [x, y];
    assert DropLast([x, y]) == [x];
    assert TotalSize(fields, [x]) == Size(fields[x]);
    assert TotalSize(fields, [x, y]) == Size(fields[x]) + Size(fields[y]);
  }

  lemma ColorSize(fields: seq<PointField>, c: ColorLayout, pointStep: nat)
    requires FieldsFit(fields, c, pointStep)
    requires forall k :: 0 <= k < |ColorFields(c)| ==> ColorFields(c)[k] < |fields|
    ensures TotalSize(fields, ColorFields(c)) == ColorBytes(c)
  {
    match c
    case NoColor =>
    case Packed(f) =>
      assert DropLast([f]) == [];
    case Separate(r, g, b, a) =>
      ThreeSizes(fields, r, g, b);
      if a.Some? {
        assert DropLast([r, g, b] + [a.value]) == [r, g, b];
      } else {
        assert [r, g, b] + [] == [r, g, b];
      }
  }
}
