/**
 Point geometry and the side bytes of a cloud:
 transport/draco_pointcloud_codec.cpp, lines 220-242, 322-398 and 400-406.
 */
module Sidecar {
  import opened Common
  import opened Arithmetic
  import opened PointLayout

  datatype Geometry = Geometry(width: UInt32, height: UInt32, pointStep: UInt32, rowStep: UInt32) {
    function PointCount(): nat {
      width * height
    }

    function DataSize(): nat {
      rowStep * height
    }

    predicate RowsFit() {
      width * pointStep <= rowStep
    }
  }

  const INT32_MAX := 0x7FFF_FFFF

  predicate StorageValid(g: Geometry, dataSize: nat) {
    && (g.height == 0 ==> g.width == 0)
    && g.RowsFit()
    && g.DataSize() == dataSize
    && g.PointCount() <= INT32_MAX
    && (g.PointCount() > 0 ==> g.pointStep > 0)
  }

  // The geometry and mask of a cloud that has points
  ghost predicate Laid(g: Geometry, mask: seq<bool>) {
    g.width > 0 && g.pointStep > 0 && g.rowStep > 0 && g.RowsFit() && |mask| == g.pointStep
  }

  // Position q of the data holds a side byte: row padding or an unencoded byte of a point.
  predicate IsSide(g: Geometry, mask: seq<bool>, q: nat)
    requires g.pointStep > 0 && g.rowStep > 0 && |mask| == g.pointStep
  {
    var r := q % g.rowStep;
    r >= g.width * g.pointStep || !mask[r % g.pointStep]
  }

  // The side bytes in address order
  function SideBytes(g: Geometry, mask: seq<bool>, data: seq<Byte>): (side: seq<Byte>)
    requires g.pointStep > 0 && g.rowStep > 0 && |mask| == g.pointStep
  {
    if data == [] then []
    else SideBytes(g, mask, DropLast(data)) + (if IsSide(g, mask, |data| - 1) then [Last(data)] else [])
  }

  function SideCount(g: Geometry, mask: seq<bool>, n: nat): nat
    requires g.pointStep > 0 && g.rowStep > 0 && |mask| == g.pointStep
  {
    if n == 0 then 0 else SideCount(g, mask, n - 1) + if IsSide(g, mask, n - 1) then 1 else 0
  }

  lemma {:induction false} SideBytesLength(g: Geometry, mask: seq<bool>, data: seq<Byte>)
    requires Laid(g, mask)
    ensures |SideBytes(g, mask, data)| == SideCount(g, mask, |data|)
  {
    if data != [] {
      SideBytesLength(g, mask, DropLast(data));
    }
  }

  // ----- Where positions fall -----

  // Offset of the point in a given row and column
  function PointAt(g: Geometry, row: nat, column: nat): nat {
    g.rowStep * row + g.pointStep * column
  }

  lemma ColumnInRow(g: Geometry, column: nat)
    requires g.RowsFit() && column < g.width
    ensures g.pointStep * column + g.pointStep <= g.width * g.pointStep <= g.rowStep
  {
    MulMonotone(g.pointStep, column + 1, g.width);
  }

  lemma PointByteSide(g: Geometry, mask: seq<bool>, row: nat, column: nat, byte: nat)
    requires Laid(g, mask) && column < g.width && byte < g.pointStep
    ensures IsSide(g, mask, PointAt(g, row, column) + byte) <==> !mask[byte]
  {
    ColumnInRow(g, column);
    var r := g.pointStep * column + byte;
    QuotientUnique(PointAt(g, row, column) + byte, g.rowStep, row, r);
    QuotientUnique(r, g.pointStep, column, byte);
  }

  lemma PaddingSide(g: Geometry, mask: seq<bool>, row: nat, k: nat)
    requires Laid(g, mask) && g.width * g.pointStep <= k < g.rowStep
    ensures IsSide(g, mask, g.rowStep * row + k)
  {
    QuotientUnique(g.rowStep * row + k, g.rowStep, row, k);
  }

  lemma RowEnd(g: Geometry, row: nat)
    requires row < g.height
    ensures g.rowStep * row + g.rowStep <= g.DataSize()
    ensures g.rowStep * (row + 1) == g.rowStep * row + g.rowStep
  {
    MulMonotone(g.rowStep, row + 1, g.height);
  }

  lemma PointInData(g: Geometry, row: nat, column: nat)
    requires g.RowsFit() && row < g.height && column < g.width
    ensures PointAt(g, row, column) + g.pointStep <= g.rowStep * row + g.width * g.pointStep
    ensures PointAt(g, row, column) + g.pointStep <= g.DataSize()
    ensures PointAt(g, row, column + 1) == PointAt(g, row, column) + g.pointStep
  {
    ColumnInRow(g, column);
    RowEnd(g, row);
  }

  // ----- Extraction -----

  lemma SideBytesStep(g: Geometry, mask: seq<bool>, data: seq<Byte>, q: nat)
    requires Laid(g, mask) && q < |data|
    ensures SideBytes(g, mask, data[..q + 1])
         == SideBytes(g, mask, data[..q]) + (if IsSide(g, mask, q) then [data[q]] else [])
  {
    assert DropLast(data[..q + 1]) == data[..q];
  }

  lemma {:induction false} SideBytesRun(g: Geometry, mask: seq<bool>, data: seq<Byte>, a: nat, b: nat)
    requires Laid(g, mask) && a <= b <= |data|
    requires forall q :: a <= q < b ==> IsSide(g, mask, q)
    ensures SideBytes(g, mask, data[..b]) == SideBytes(g, mask, data[..a]) + data[a..b]
  {
    if a < b {
      SideBytesRun(g, mask, data, a, b - 1);
      SideBytesStep(g, mask, data, b - 1);
      assert data[a..b] == data[a..b - 1] + [data[b - 1]];
    }
  }

  // The padding of a row lies between these two positions
  function PaddingStart(g: Geometry, row: nat): nat {
    g.rowStep * row + g.width * g.pointStep
  }

  function RowStart(g: Geometry, row: nat): nat {
    g.rowStep * row
  }

  lemma RowPadding(g: Geometry, mask: seq<bool>, row: nat)
    requires Laid(g, mask)
    ensures forall q :: PaddingStart(g, row) <= q < RowStart(g, row + 1) ==> IsSide(g, mask, q)
  {
    var start := g.rowStep * row;
    assert RowStart(g, row + 1) == start + g.rowStep;
    forall q | PaddingStart(g, row) <= q < RowStart(g, row + 1)
      ensures IsSide(g, mask, q)
    {
      PaddingSide(g, mask, row, q - start);
    }
  }

  method ExtractPoint(g: Geometry, mask: seq<bool>, data: seq<Byte>, row: nat, column: nat,
                      before: seq<Byte>)
    returns (sidecar: seq<Byte>)
    requires Laid(g, mask) && |data| == g.DataSize() && row < g.height && column < g.width
    requires PointAt(g, row, column) <= |data|
    requires before == SideBytes(g, mask, data[..PointAt(g, row, column)])
    ensures PointAt(g, row, column + 1) <= |data|
    ensures sidecar == SideBytes(g, mask, data[..PointAt(g, row, column + 1)])
  {
    PointInData(g, row, column);
    var offset := PointAt(g, row, column);
    sidecar := before;
    for byte := 0 to g.pointStep
      invariant sidecar == SideBytes(g, mask, data[..offset + byte])
    {
      PointByteSide(g, mask, row, column, byte);
      SideBytesStep(g, mask, data, offset + byte);
      if !mask[byte] {
        sidecar := sidecar + [data[offset + byte]];
      }
    }
  }

  lemma PointAtStart(g: Geometry, row: nat)
    ensures PointAt(g, row, 0) == RowStart(g, row)
  {
  }

  lemma PaddingLength(g: Geometry, row: nat)
    requires g.RowsFit()
    ensures PointAt(g, row, g.width) == PaddingStart(g, row) <= RowStart(g, row + 1)
    ensures RowStart(g, row + 1) - PaddingStart(g, row) == g.rowStep - g.width * g.pointStep
  {
  }

  lemma PaddingAppended(g: Geometry, mask: seq<bool>, data: seq<Byte>, row: nat)
    requires Laid(g, mask) && |data| == g.DataSize() && row < g.height
    ensures PointAt(g, row, g.width) == PaddingStart(g, row) <= RowStart(g, row + 1) <= |data|
    ensures SideBytes(g, mask, data[..RowStart(g, row + 1)])
         == SideBytes(g, mask, data[..PaddingStart(g, row)])
          + data[PaddingStart(g, row)..RowStart(g, row + 1)]
  {
    RowEnd(g, row);
    PaddingLength(g, row);
    RowPadding(g, mask, row);
    SideBytesRun(g, mask, data, PaddingStart(g, row), RowStart(g, row + 1));
  }

  method ExtractRow(g: Geometry, mask: seq<bool>, data: seq<Byte>, row: nat, before: seq<Byte>)
    returns (sidecar: seq<Byte>)
    requires Laid(g, mask) && |data| == g.DataSize() && row < g.height
    requires RowStart(g, row) <= |data| && before == SideBytes(g, mask, data[..RowStart(g, row)])
    ensures RowStart(g, row + 1) <= |data|
    ensures sidecar == SideBytes(g, mask, data[..RowStart(g, row + 1)])
  {
    PointAtStart(g, row);
    sidecar := before;
    for column := 0 to g.width
      invariant PointAt(g, row, column) <= |data|
      invariant sidecar == SideBytes(g, mask, data[..PointAt(g, row, column)])
    {
      sidecar := ExtractPoint(g, mask, data, row, column, sidecar);
    }
    PaddingAppended(g, mask, data, row);
    sidecar := sidecar + data[PaddingStart(g, row)..RowStart(g, row + 1)];
  }

  function ExpectedLength(g: Geometry, mask: seq<bool>): nat
    requires g.RowsFit()
  {
    CountFalse(mask) * g.width * g.height + (g.rowStep - g.width * g.pointStep) * g.height
  }

  method ExtractSidecar(g: Geometry, mask: seq<bool>, data: seq<Byte>)
    returns (ok: bool, sidecar: seq<Byte>)
    requires Laid(g, mask) && |data| == g.DataSize()
    ensures ok
    ensures sidecar == SideBytes(g, mask, data)
  {
    var expected := ExpectedLength(g, mask);
    sidecar := [];
    for row := 0 to g.height
      invariant RowStart(g, row) <= |data|
      invariant sidecar == SideBytes(g, mask, data[..RowStart(g, row)])
    {
      sidecar := ExtractRow(g, mask, data, row, sidecar);
    }
    assert data[..RowStart(g, g.height)] == data;
    SideBytesLength(g, mask, data);
    SidecarLength(g, mask);
    ok := |sidecar| == expected;
  }

  // ----- The length of the sidecar -----

  lemma {:induction false} PointSideCount(g: Geometry, mask: seq<bool>, row: nat, column: nat, byte: nat)
    requires Laid(g, mask) && column < g.width && byte <= g.pointStep
    ensures SideCount(g, mask, PointAt(g, row, column) + byte)
         == SideCount(g, mask, PointAt(g, row, column)) + CountFalse(mask[..byte])
  {
    if byte > 0 {
      PointSideCount(g, mask, row, column, byte - 1);
      PointByteSide(g, mask, row, column, byte - 1);
      assert DropLast(mask[..byte]) == mask[..byte - 1];
    }
  }

  lemma {:induction false} RowSideCount(g: Geometry, mask: seq<bool>, row: nat, columns: nat)
    requires Laid(g, mask) && columns <= g.width
    ensures SideCount(g, mask, PointAt(g, row, columns))
         == SideCount(g, mask, RowStart(g, row)) + CountFalse(mask) * columns
  {
    if columns == 0 {
    } else {
      RowSideCount(g, mask, row, columns - 1);
      PointSideCount(g, mask, row, columns - 1, g.pointStep);
      assert mask[..g.pointStep] == mask;
      NextPoint(g, row, columns - 1);
      OneMore(CountFalse(mask), columns - 1);
    }
  }

  lemma NextPoint(g: Geometry, row: nat, column: nat)
    ensures PointAt(g, row, column + 1) == PointAt(g, row, column) + g.pointStep
  {
  }

  lemma OneMore(a: nat, k: nat)
    ensures a * (k + 1) == a * k + a
  {
  }

  lemma {:induction false} SideCountRun(g: Geometry, mask: seq<bool>, a: nat, b: nat)
    requires Laid(g, mask) && a <= b
    requires forall q :: a <= q < b ==> IsSide(g, mask, q)
    ensures SideCount(g, mask, b) == SideCount(g, mask, a) + (b - a)
  {
    if a < b {
      SideCountRun(g, mask, a, b - 1);
    }
  }

  function PerRow(g: Geometry, mask: seq<bool>): nat
    requires g.RowsFit()
  {
    CountFalse(mask) * g.width + (g.rowStep - g.width * g.pointStep)
  }

  lemma WholeRowCount(g: Geometry, mask: seq<bool>, row: nat)
    requires Laid(g, mask)
    ensures SideCount(g, mask, RowStart(g, row + 1)) == SideCount(g, mask, RowStart(g, row)) + PerRow(g, mask)
  {
    RowSideCount(g, mask, row, g.width);
    RowPadding(g, mask, row);
    PaddingLength(g, row);
    SideCountRun(g, mask, PaddingStart(g, row), RowStart(g, row + 1));
  }

  lemma {:induction false} RowsSideCount(g: Geometry, mask: seq<bool>, rows: nat)
    requires Laid(g, mask)
    ensures SideCount(g, mask, RowStart(g, rows)) == PerRow(g, mask) * rows
  {
    if rows == 0 {
    } else {
      RowsSideCount(g, mask, rows - 1);
      WholeRowCount(g, mask, rows - 1);
      OneMore(PerRow(g, mask), rows - 1);
    }
  }

  // The sidecar has exactly the length both functions expect.
  lemma SidecarLength(g: Geometry, mask: seq<bool>)
    requires Laid(g, mask)
    ensures SideCount(g, mask, g.DataSize()) == ExpectedLength(g, mask)
  {
    RowsSideCount(g, mask, g.height);
    Distribute(CountFalse(mask) * g.width, g.rowStep - g.width * g.pointStep, g.height);
  }

  lemma Distribute(a: int, b: int, k: int)
    ensures (a + b) * k == a * k + b * k
  {
  }

  // Sidecar bytes and encoded bytes together account for all the data.
  lemma SidecarAndEncodedBytes(g: Geometry, mask: seq<bool>, data: seq<Byte>)
    requires Laid(g, mask) && |data| == g.DataSize()
    ensures |SideBytes(g, mask, data)| + CountTrue(mask) * g.PointCount() == |data|
  {
    SideBytesLength(g, mask, data);
    SidecarLength(g, mask);
    CountsPartition(mask);
    Accounting(CountTrue(mask), CountFalse(mask), g.pointStep, g.width, g.height, g.rowStep);
  }

  lemma Accounting(t: nat, f: nat, step: nat, width: nat, height: nat, row: nat)
    requires t + f == step && width * step <= row
    ensures f * width * height + (row - width * step) * height + t * (width * height) == row * height
  {
    assert width * step == f * width + t * width;
    Distribute(f * width, row - width * step, height);
    Distribute(f * width + (row - width * step), t * width, height);
    assert t * width * height == t * (width * height);
  }

  // ----- Restoration -----

  // What the data is after restoring: encoded bytes as before, side bytes from the sidecar
  ghost predicate Restored(g: Geometry, mask: seq<bool>, before: seq<Byte>, sidecar: seq<Byte>, after: seq<Byte>)
    requires g.pointStep > 0 && g.rowStep > 0 && |mask| == g.pointStep
  {
    && |after| == |before|
    && SideBytes(g, mask, after) == sidecar
    && forall q :: 0 <= q < |before| && !IsSide(g, mask, q) ==> after[q] == before[q]
  }

  lemma {:induction false} SideCountMonotone(g: Geometry, mask: seq<bool>, a: nat, b: nat)
    requires Laid(g, mask) && a <= b
    ensures SideCount(g, mask, a) <= SideCount(g, mask, b)
  {
    if a < b {
      SideCountMonotone(g, mask, a, b - 1);
    }
  }

  // Progress of the restoring loops up to position at: the side bytes so far are the
  // sidecar so far, and everything else is as before
  ghost predicate RestoredUpTo(g: Geometry, mask: seq<bool>, before: seq<Byte>, sidecar: seq<Byte>,
                               now: seq<Byte>, at: nat, cursor: nat)
    requires g.pointStep > 0 && g.rowStep > 0 && |mask| == g.pointStep
  {
    && |now| == |before| && at <= |now| && cursor <= |sidecar|
    && SideBytes(g, mask, now[..at]) == sidecar[..cursor]
    && now[at..] == before[at..]
    && forall q :: 0 <= q < at && !IsSide(g, mask, q) ==> now[q] == before[q]
  }

  // One side byte restored
  lemma RestoreSide(g: Geometry, mask: seq<bool>, before: seq<Byte>, sidecar: seq<Byte>,
                    now: seq<Byte>, at: nat, cursor: nat)
    requires Laid(g, mask) && RestoredUpTo(g, mask, before, sidecar, now, at, cursor)
    requires at < |now| && cursor < |sidecar| && IsSide(g, mask, at)
    ensures RestoredUpTo(g, mask, before, sidecar, now[at := sidecar[cursor]], at + 1, cursor + 1)
  {
    var next := now[at := sidecar[cursor]];
    SideBytesStep(g, mask, next, at);
    assert next[..at] == now[..at];
    assert sidecar[..cursor + 1] == sidecar[..cursor] + [sidecar[cursor]];
    assert next[at + 1..] == now[at..][1..];
    assert before[at + 1..] == before[at..][1..];
  }

  // One encoded byte passed over
  lemma RestoreSkip(g: Geometry, mask: seq<bool>, before: seq<Byte>, sidecar: seq<Byte>,
                    now: seq<Byte>, at: nat, cursor: nat)
    requires Laid(g, mask) && RestoredUpTo(g, mask, before, sidecar, now, at, cursor)
    requires at < |now| && !IsSide(g, mask, at)
    ensures RestoredUpTo(g, mask, before, sidecar, now, at + 1, cursor)
  {
    SideBytesStep(g, mask, now, at);
    assert now[at] == now[at..][0] == before[at..][0] == before[at];
    assert now[at + 1..] == now[at..][1..];
    assert before[at + 1..] == before[at..][1..];
  }

  // While side positions remain, so do sidecar bytes.
  lemma CursorInBounds(g: Geometry, mask: seq<bool>, before: seq<Byte>, sidecar: seq<Byte>,
                       now: seq<Byte>, at: nat, cursor: nat)
    requires Laid(g, mask) && RestoredUpTo(g, mask, before, sidecar, now, at, cursor)
    requires |before| == g.DataSize() && |sidecar| == ExpectedLength(g, mask)
    ensures at < |now| && IsSide(g, mask, at) ==> cursor < |sidecar|
    ensures at == |now| ==> cursor == |sidecar|
  {
    SideBytesLength(g, mask, now[..at]);
    SidecarLength(g, mask);
    if at < |now| {
      SideCountMonotone(g, mask, at + 1, |now|);
    }
  }

  method RestorePoint(g: Geometry, mask: seq<bool>, sidecar: seq<Byte>, row: nat, column: nat,
                      data: array<Byte>, start: nat, ghost before: seq<Byte>)
    returns (cursor: nat)
    requires Laid(g, mask) && row < g.height && column < g.width
    requires |before| == g.DataSize() && |sidecar| == ExpectedLength(g, mask)
    requires RestoredUpTo(g, mask, before, sidecar, data[..], PointAt(g, row, column), start)
    modifies data
    ensures RestoredUpTo(g, mask, before, sidecar, data[..], PointAt(g, row, column + 1), cursor)
  {
    PointInData(g, row, column);
    var offset := PointAt(g, row, column);
    cursor := start;
    for byte := 0 to g.pointStep
      invariant RestoredUpTo(g, mask, before, sidecar, data[..], offset + byte, cursor)
    {
      PointByteSide(g, mask, row, column, byte);
      CursorInBounds(g, mask, before, sidecar, data[..], offset + byte, cursor);
      if !mask[byte] {
        RestoreSide(g, mask, before, sidecar, data[..], offset + byte, cursor);
        ghost var was := data[..];
        data[offset + byte] := sidecar[cursor];
        assert data[..] == was[offset + byte := sidecar[cursor]];
        cursor := cursor + 1;
      } else {
        RestoreSkip(g, mask, before, sidecar, data[..], offset + byte, cursor);
      }
    }
  }

  method RestorePadding(g: Geometry, mask: seq<bool>, sidecar: seq<Byte>, row: nat,
                        data: array<Byte>, start: nat, ghost before: seq<Byte>)
    returns (cursor: nat)
    requires Laid(g, mask) && row < g.height
    requires |before| == g.DataSize() && |sidecar| == ExpectedLength(g, mask)
    requires RestoredUpTo(g, mask, before, sidecar, data[..], PaddingStart(g, row), start)
    modifies data
    ensures RestoredUpTo(g, mask, before, sidecar, data[..], RowStart(g, row + 1), cursor)
  {
    RowEnd(g, row);
    PaddingLength(g, row);
    RowPadding(g, mask, row);
    cursor := start;
    for q := PaddingStart(g, row) to RowStart(g, row + 1)
      invariant RestoredUpTo(g, mask, before, sidecar, data[..], q, cursor)
    {
      CursorInBounds(g, mask, before, sidecar, data[..], q, cursor);
      RestoreSide(g, mask, before, sidecar, data[..], q, cursor);
      ghost var was := data[..];
      data[q] := sidecar[cursor];
      assert data[..] == was[q := sidecar[cursor]];
      cursor := cursor + 1;
    }
  }

  method RestoreSidecar(sidecar: seq<Byte>, g: Geometry, mask: seq<bool>, data: array<Byte>)
    returns (ok: bool)
    requires Laid(g, mask) && data.Length == g.DataSize()
    modifies data
    ensures ok <==> |sidecar| == ExpectedLength(g, mask)
    ensures ok ==> Restored(g, mask, old(data[..]), sidecar, data[..])
    ensures !ok ==> data[..] == old(data[..])
  {
    if ExpectedLength(g, mask) != |sidecar| {
      return false;
    }
    ghost var before := data[..];
    var cursor: nat := 0;
    for row: nat := 0 to g.height
      invariant RestoredUpTo(g, mask, before, sidecar, data[..], RowStart(g, row), cursor)
    {
      PointAtStart(g, row);
      for column := 0 to g.width
        invariant RestoredUpTo(g, mask, before, sidecar, data[..], PointAt(g, row, column), cursor)
      {
        cursor := RestorePoint(g, mask, sidecar, row, column, data, cursor, before);
      }
      PaddingLength(g, row);
      cursor := RestorePadding(g, mask, sidecar, row, data, cursor, before);
    }
    CursorInBounds(g, mask, before, sidecar, data[..], data.Length, cursor);
    assert data[..][..data.Length] == data[..];
    assert sidecar[..cursor] == sidecar;
    ok := cursor == |sidecar|;
  }

  // ----- Extraction and restoration are inverse -----

  ghost predicate SameSide(g: Geometry, mask: seq<bool>, a: seq<Byte>, b: seq<Byte>)
    requires g.pointStep > 0 && g.rowStep > 0 && |mask| == g.pointStep
    requires |a| == |b|
  {
    forall q :: 0 <= q < |a| && IsSide(g, mask, q) ==> a[q] == b[q]
  }

  lemma SameSideStep(g: Geometry, mask: seq<bool>, a: seq<Byte>, b: seq<Byte>)
    requires Laid(g, mask) && |a| == |b| && a != []
    ensures SameSide(g, mask, a, b)
       <==> (SameSide(g, mask, DropLast(a), DropLast(b)) && (IsSide(g, mask, |a| - 1) ==> Last(a) == Last(b)))
  {
    if SameSide(g, mask, a, b) {
      forall q | 0 <= q < |a| - 1 && IsSide(g, mask, q)
        ensures DropLast(a)[q] == DropLast(b)[q]
      {
        assert a[q] == b[q];
      }
    } else {
      var q :| 0 <= q < |a| && IsSide(g, mask, q) && a[q] != b[q];
      assert q < |a| - 1 ==> DropLast(a)[q] != DropLast(b)[q];
    }
  }

  lemma AppendEqual(x: seq<Byte>, c: Byte, y: seq<Byte>, d: Byte)
    requires |x| == |y|
    ensures x + [c] == y + [d] <==> x == y && c == d
  {
    if x + [c] == y + [d] {
      SplitEqual(x, [c], y, [d]);
      assert [c][0] == [d][0];
    }
  }

  // Equal side bytes mean equal bytes at every side position.
  lemma {:induction false} SideBytesDetermine(g: Geometry, mask: seq<bool>, a: seq<Byte>, b: seq<Byte>)
    requires Laid(g, mask) && |a| == |b|
    ensures SideBytes(g, mask, a) == SideBytes(g, mask, b) <==> SameSide(g, mask, a, b)
  {
    if a != [] {
      var x, y := SideBytes(g, mask, DropLast(a)), SideBytes(g, mask, DropLast(b));
      SideBytesDetermine(g, mask, DropLast(a), DropLast(b));
      SideBytesLength(g, mask, DropLast(a));
      SideBytesLength(g, mask, DropLast(b));
      SameSideStep(g, mask, a, b);
      AppendEqual(x, Last(a), y, Last(b));
      assert x + [] == x && y + [] == y;
    }
  }

  // Restoring the sidecar of a cloud onto any data of its size gives back every side byte
  // and touches no encoded byte; extracting from the result gives the sidecar back.
  lemma RestoreInvertsExtract(g: Geometry, mask: seq<bool>, source: seq<Byte>, before: seq<Byte>,
                              after: seq<Byte>)
    requires Laid(g, mask) && |source| == |before| == g.DataSize()
    ensures Restored(g, mask, before, SideBytes(g, mask, source), after)
       <==> (|after| == |before|
             && forall q :: 0 <= q < |before| ==>
                  after[q] == if IsSide(g, mask, q) then source[q] else before[q])
  {
    if |after| == |before| {
      SideBytesDetermine(g, mask, after, source);
    }
  }

  // ----- The sidecar position by position -----

  // Side positions in numbers: the unencoded bytes of each point; PaddingSide has the padding.
  lemma PointSideInNumbers(g: Geometry, mask: seq<bool>, row: nat, column: nat, byte: nat, q: nat)
    requires Laid(g, mask) && column < g.width && byte < g.pointStep
    requires q == row * g.rowStep + column * g.pointStep + byte
    ensures IsSide(g, mask, q) <==> !mask[byte]
  {
    PointByteSide(g, mask, row, column, byte);
    assert row * g.rowStep == g.rowStep * row && column * g.pointStep == g.pointStep * column;
  }

  ghost function SidesBelow(g: Geometry, mask: seq<bool>, n: nat): set<nat>
    requires g.pointStep > 0 && g.rowStep > 0 && |mask| == g.pointStep
  {
    set q: nat | q < n && IsSide(g, mask, q)
  }

  lemma {:induction false} SidesCounted(g: Geometry, mask: seq<bool>, n: nat)
    requires Laid(g, mask)
    ensures SideCount(g, mask, n) == |SidesBelow(g, mask, n)|
  {
    if n == 0 {
      assert SidesBelow(g, mask, 0) == {};
    } else {
      SidesCounted(g, mask, n - 1);
      assert SidesBelow(g, mask, n)
          == SidesBelow(g, mask, n - 1) + (if IsSide(g, mask, n - 1) then {n - 1} else {});
    }
  }

  // The sidecar holds the byte at each side position, in the order of the positions.
  lemma SideByteAt(g: Geometry, mask: seq<bool>, data: seq<Byte>, q: nat)
    requires Laid(g, mask) && q < |data| && IsSide(g, mask, q)
    ensures |SideBytes(g, mask, data)| == |SidesBelow(g, mask, |data|)|
    ensures |SidesBelow(g, mask, q)| < |SideBytes(g, mask, data)|
    ensures SideBytes(g, mask, data)[|SidesBelow(g, mask, q)|] == data[q]
  {
    SidesCounted(g, mask, q);
    SidesCounted(g, mask, |data|);
    SideBytesLength(g, mask, data);
    SideByteCounted(g, mask, data, q);
  }

  lemma {:induction false} SideByteCounted(g: Geometry, mask: seq<bool>, data: seq<Byte>, q: nat)
    requires Laid(g, mask) && q < |data| && IsSide(g, mask, q)
    ensures SideCount(g, mask, q) < |SideBytes(g, mask, data)|
    ensures SideBytes(g, mask, data)[SideCount(g, mask, q)] == data[q]
  {
    SideBytesLength(g, mask, DropLast(data));
    if q < |data| - 1 {
      SideByteCounted(g, mask, DropLast(data), q);
    }
  }
}
