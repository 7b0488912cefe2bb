/** GenerateColorfulStarVertices (RenderManager.h): the topology of the
    test star mesh, a centre vertex, 2n rim vertices alternating between the
    outer and the inner radius, and a fan of 2n triangles. Positions and
    colours are floating point and are not modelled; a rim vertex records
    its angle step and which radius it uses. */
module StarMesh {
  const U32: nat := 0x1_0000_0000
  /** Index widths: the uint8_t the indices pass through as written, and
      the uint16_t of the index buffer. */
  const U8: nat := 0x100
  const U16: nat := 0x1_0000

  datatype Vertex = Center | Rim(step: nat, outer: bool)

  /** numPoints * 2, computed in uint32. */
  function RimCount(numPoints: nat): (r: nat)
    requires numPoints < U32
    ensures r < U32 && r % 2 == 0
    ensures numPoints * 2 < U32 ==> r == numPoints * 2
  {
    (numPoints * 2) % U32
  }

  function RimVertex(i: nat): (v: Vertex)
    ensures v.Rim? && v.step == i && (v.outer <==> i % 2 == 0)
  {
    Rim(i, i % 2 == 0)
  }

  /** Triangle k of the fan: the centre, rim vertex k+1 and the next rim
      vertex, wrapping from the last back to vertex 1, each index reduced
      to `width` by the cast it passes through. */
  function Triangle(k: nat, rim: nat, width: nat): (t: seq<nat>)
    requires rim > 0 && width > 0
    ensures |t| == 3 && t[0] == 0 && t[1] < width && t[2] < width
  {
    [0, (k + 1) % width, ((k + 1) % rim + 1) % width]
  }

  /** The vertices pushed for the first m rim steps. */
  function VerticesUpTo(m: nat): (r: seq<Vertex>)
    ensures |r| == m + 1 && r[0] == Center
    ensures forall i :: 0 <= i < m ==> r[i + 1] == RimVertex(i)
  {
    if m == 0 then [Center] else VerticesUpTo(m - 1) + [RimVertex(m - 1)]
  }

  /** The indices pushed for the first m rim steps. */
  function IndicesUpTo(m: nat, rim: nat, width: nat): (r: seq<nat>)
    requires rim > 0 && width > 0
    ensures |r| == 3 * m
  {
    if m == 0 then [] else IndicesUpTo(m - 1, rim, width) + Triangle(m - 1, rim, width)
  }

  /** Entries 3k .. 3k+2 are triangle k. */
  lemma {:induction false} IndicesAt(m: nat, rim: nat, width: nat, k: nat)
    requires rim > 0 && width > 0 && k < m
    ensures IndicesUpTo(m, rim, width)[3 * k .. 3 * k + 3] == Triangle(k, rim, width)
    decreases m
  {
    var prev := IndicesUpTo(m - 1, rim, width);
    if k < m - 1 {
      IndicesAt(m - 1, rim, width, k);
      assert (prev + Triangle(m - 1, rim, width))[3 * k .. 3 * k + 3] == prev[3 * k .. 3 * k + 3];
    } else {
      assert (prev + Triangle(m - 1, rim, width))[3 * k .. 3 * k + 3] == Triangle(m - 1, rim, width);
    }
  }

  /** The loop of GenerateColorfulStarVertices with indices reduced to
      `width`; both output vectors start cleared. */
  method EmitStar(numPoints: nat, width: nat) returns (vertices: seq<Vertex>, indices: seq<nat>)
    requires numPoints < U32 && width > 0
    ensures vertices == VerticesUpTo(RimCount(numPoints))
    ensures RimCount(numPoints) > 0 ==> indices == IndicesUpTo(RimCount(numPoints), RimCount(numPoints), width)
    ensures RimCount(numPoints) == 0 ==> indices == []
  {
    vertices := [Center];
    indices := [];
    var rim := RimCount(numPoints);
    var i := 0;
    while i < rim
      invariant 0 <= i <= rim
      invariant vertices == VerticesUpTo(i)
      invariant rim > 0 ==> indices == IndicesUpTo(i, rim, width)
      invariant rim == 0 ==> indices == []
    {
      vertices := vertices + [RimVertex(i)];
      indices := indices + [0, (i + 1) % width, ((i + 1) % rim + 1) % width];
      i := i + 1;
    }
  }

  /** As written: i1 and i2 are stored in uint8_t before entering the
      uint16_t buffer. */
  method GenerateColorfulStarVerticesAsWritten(numPoints: nat) returns (vertices: seq<Vertex>, indices: seq<nat>)
    requires numPoints < U32
    ensures vertices == VerticesUpTo(RimCount(numPoints))
    ensures RimCount(numPoints) > 0 ==> indices == IndicesUpTo(RimCount(numPoints), RimCount(numPoints), U8)
    ensures RimCount(numPoints) == 0 ==> indices == []
  {
    vertices, indices := EmitStar(numPoints, U8);
  }

  /** Corrected: the indices keep the width of the uint16_t buffer. */
  method GenerateColorfulStarVertices(numPoints: nat) returns (vertices: seq<Vertex>, indices: seq<nat>)
    requires numPoints < U32
    ensures vertices == VerticesUpTo(RimCount(numPoints))
    ensures RimCount(numPoints) > 0 ==> indices == IndicesUpTo(RimCount(numPoints), RimCount(numPoints), U16)
    ensures RimCount(numPoints) == 0 ==> indices == []
  {
    vertices, indices := EmitStar(numPoints, U16);
  }

  /** Triangle k of a fan narrower than the index width is exact. */
  lemma FanTriangle(rim: nat, width: nat, k: nat)
    requires 0 < rim < width && k < rim
    ensures IndicesUpTo(rim, rim, width)[3 * k .. 3 * k + 3] == [0, k + 1, (k + 1) % rim + 1]
  {
    IndicesAt(rim, rim, width, k);
    var next := (k + 1) % rim;
    assert next < rim;
    ModOfSmall(k + 1, width);
    ModOfSmall(next + 1, width);
  }

  lemma ModOfSmall(a: nat, m: nat)
    requires a < m
    ensures a % m == a
  {
  }

  /** Every index of such a fan names one of its rim + 1 vertices. */
  lemma FanIndexInRange(rim: nat, width: nat, j: nat)
    requires 0 < rim < width && j < 3 * rim
    ensures IndicesUpTo(rim, rim, width)[j] <= rim
  {
    var k := j / 3;
    var ix := IndicesUpTo(rim, rim, width);
    FanTriangle(rim, width, k);
    assert ix[j] == ix[3 * k .. 3 * k + 3][j - 3 * k];
  }

  /** The intended fan: 2n+1 vertices (the centre first, then outer and
      inner radius alternating), 6n indices, and triangle k is
      (0, k+1, (k+1) mod 2n + 1), so the last one closes back on vertex 1
      and every index names a vertex. This holds whenever the vertex count
      fits the index width. */
  lemma StarFan(numPoints: nat, width: nat)
    requires 0 < numPoints && 2 * numPoints < U32 && 2 * numPoints < width
    ensures var rim := RimCount(numPoints);
      var vs := VerticesUpTo(rim);
      var ix := IndicesUpTo(rim, rim, width);
      && rim == 2 * numPoints
      && |vs| == 2 * numPoints + 1 && |ix| == 6 * numPoints
      && (forall k :: 0 <= k < rim ==> ix[3 * k .. 3 * k + 3] == [0, k + 1, (k + 1) % rim + 1])
      && ix[3 * (rim - 1) .. 3 * rim] == [0, rim, 1]
      && (forall j :: 0 <= j < |ix| ==> ix[j] < |vs|)
  {
    var rim := RimCount(numPoints);
    assert rim == 2 * numPoints;
    forall k | 0 <= k < rim
      ensures IndicesUpTo(rim, rim, width)[3 * k .. 3 * k + 3] == [0, k + 1, (k + 1) % rim + 1]
    {
      FanTriangle(rim, width, k);
    }
    forall j | 0 <= j < 3 * rim ensures IndicesUpTo(rim, rim, width)[j] <= rim {
      FanIndexInRange(rim, width, j);
    }
    FanTriangle(rim, width, rim - 1);
  }

  /** As written the fan is right only while 2n < 256: with 128 points the
      last triangle (k = 255) comes out as (0, 0, 1) instead of
      (0, 256, 1), so rim vertex 256 is never drawn. */
  lemma AsWrittenBreaksAt128Points()
    ensures var rim := RimCount(128);
      rim == 256 && IndicesUpTo(rim, rim, U8)[3 * 255 .. 3 * 256] == [0, 0, 1]
  {
    IndicesAt(256, 256, U8, 255);
  }
}
