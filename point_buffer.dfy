/** The fixed-capacity point accumulation buffer (PointCloud.java): one
    preallocated float store of MAX_POINTS * 3 slots and a logical point count.
    Appending a frame either transforms and stores all of its points after the
    valid ones, or, when they would not fit, changes nothing at all. */
module PointBuffer {
  import opened VertexMath
  import opened TextExport

  const MAX_POINTS: nat := 1000000
  /** Floats per point. The arithmetic below writes it as the literal 3, which
      keeps the index arithmetic linear for the verifier. */
  const POINT_TO_XYZ: nat := 3

  /** The number of floats in the store. */
  const BUFFER_FLOATS: nat := MAX_POINTS * POINT_TO_XYZ

  /** The abstract value of a buffer: the logical point count and the whole float
      store, including the stale slots beyond the count. */
  datatype Cloud = Cloud(count: nat, storage: seq<real>)
  {
    ghost predicate Valid()
    {
      |storage| == BUFFER_FLOATS && count <= MAX_POINTS
    }

    /** The floats of the valid points: the first count * 3 slots. */
    function Points(): (r: seq<real>)
      requires Valid()
      ensures |r| == 3 * count
    {
      storage[..3 * count]
    }
  }

  /** The buffer after a frame of pointCount points, read from xyz, is appended
      under the model matrix m. */
  function Appended(c: Cloud, xyz: seq<real>, pointCount: nat, m: Mat4): (r: Cloud)
    requires c.Valid() && 3 * pointCount <= |xyz|
    ensures r.Valid()
    ensures c.count + pointCount > MAX_POINTS ==> r == c
    ensures c.count + pointCount <= MAX_POINTS ==>
      && r.count == c.count + pointCount
      && r.Points() == c.Points() + TransformFrame(m, xyz, pointCount)
      && r.storage[3 * r.count..] == c.storage[3 * r.count..]
  {
    if c.count + pointCount > MAX_POINTS then c
    else
      var base := 3 * c.count;
      var end := base + 3 * pointCount;
      var r := Cloud(c.count + pointCount, c.storage[..base] + TransformFrame(m, xyz, pointCount) + c.storage[end..]);
      assert r.Points() == c.Points() + TransformFrame(m, xyz, pointCount);
      r
  }

  /** The buffer after clear: no valid points, the store itself untouched. */
  function Cleared(c: Cloud): (r: Cloud)
    requires c.Valid()
    ensures r.Valid() && r.Points() == []
    ensures r.storage == c.storage
  {
    Cloud(0, c.storage)
  }

  /** Clearing twice is clearing once. */
  lemma ClearIdempotent(c: Cloud)
    requires c.Valid()
    ensures Cleared(Cleared(c)) == Cleared(c)
  {
  }

  /** After an accepted append, slot (old + i) * 3 + k holds component k of
      m * (x_i, y_i, z_i, 1), point i being read in order from xyz. */
  lemma AppendedAt(c: Cloud, xyz: seq<real>, pointCount: nat, m: Mat4, i: nat, k: nat)
    requires c.Valid() && 3 * pointCount <= |xyz|
    requires c.count + pointCount <= MAX_POINTS && i < pointCount && k < 3
    ensures Appended(c, xyz, pointCount, m).storage[(c.count + i) * 3 + k]
         == MultiplyMV(m, [xyz[3 * i], xyz[3 * i + 1], xyz[3 * i + 2], 1.0])[k]
  {
    var r := Appended(c, xyz, pointCount, m);
    TransformFrameAt(m, xyz, pointCount, i, k);
    assert r.storage[(c.count + i) * 3 + k] == r.Points()[3 * c.count + (3 * i + k)];
  }

  /** An accepted or rejected append never disturbs the points already stored. */
  lemma AppendedKeepsEarlierPoints(c: Cloud, xyz: seq<real>, pointCount: nat, m: Mat4)
    requires c.Valid() && 3 * pointCount <= |xyz|
    ensures var r := Appended(c, xyz, pointCount, m);
      r.count >= c.count && r.Points()[..3 * c.count] == c.Points()
  {
  }

  /** The store while addPoints runs: the first i points of the frame are in
      place after the base, the rest of the store is as it was. */
  ghost predicate Filled(store: seq<real>, orig: seq<real>, base: nat, m: Mat4, xyz: seq<real>, i: nat)
    requires 3 * i <= |xyz|
  {
    base + 3 * i <= |orig| && store == orig[..base] + TransformFrame(m, xyz, i) + orig[base + 3 * i..]
  }

  /** Writing point i into its three slots extends the filled part by one point. */
  lemma FillStep(store: seq<real>, orig: seq<real>, base: nat, m: Mat4, xyz: seq<real>, i: nat)
    requires 3 * i + 3 <= |xyz| && base + 3 * i + 3 <= |orig|
    requires Filled(store, orig, base, m, xyz, i)
    ensures Filled(store[..base + 3 * i] + ApplyTransform(m, PointAt(xyz, i)) + store[base + 3 * i + 3..],
                   orig, base, m, xyz, i + 1)
  {
    var done := TransformFrame(m, xyz, i);
    var at := base + 3 * i;
    assert store[..at] == orig[..base] + done;
    assert store[at + 3..] == orig[at + 3..];
  }

  /** A store filled with the whole frame is the store of the appended buffer. */
  lemma FilledIsAppended(c: Cloud, xyz: seq<real>, pointCount: nat, m: Mat4, store: seq<real>)
    requires c.Valid() && 3 * pointCount <= |xyz| && c.count + pointCount <= MAX_POINTS
    requires Filled(store, c.storage, 3 * c.count, m, xyz, pointCount)
    ensures Appended(c, xyz, pointCount, m) == Cloud(c.count + pointCount, store)
  {
  }

  /** The buffer of PointCloud.java. The store is allocated once and never
      replaced; only the count and the slots it covers change. */
  class PointCloud {
    const vertexBuffer: array<real>
    var totalPointCount: nat

    ghost predicate Valid()
      reads this
    {
      vertexBuffer.Length == BUFFER_FLOATS && totalPointCount <= MAX_POINTS
    }

    /** The abstract value of this buffer. */
    ghost function Model(): (c: Cloud)
      reads this, vertexBuffer
      ensures Valid() ==> c.Valid()
    {
      Cloud(totalPointCount, vertexBuffer[..])
    }

    /** A new buffer: a store of MAX_POINTS * 3 floats and no points. */
    constructor ()
      ensures Valid() && fresh(vertexBuffer)
      ensures totalPointCount == 0
    {
      vertexBuffer := new real[BUFFER_FLOATS];
      totalPointCount := 0;
    }

    /** addPoints: either the whole frame is transformed and stored after the valid
        points, or, when it would overflow the store, nothing changes. */
    method AddPoints(xyz: seq<real>, pointCount: nat, modelMatrix: Mat4)
      requires Valid() && 3 * pointCount <= |xyz|
      modifies this, vertexBuffer
      ensures Valid()
      ensures Model() == Appended(old(Model()), xyz, pointCount, modelMatrix)
    {
      if totalPointCount + pointCount > MAX_POINTS {
        return;
      }
      ghost var before := Model();
      Fill(totalPointCount * 3, xyz, pointCount, modelMatrix);
      FilledIsAppended(before, xyz, pointCount, modelMatrix, vertexBuffer[..]);
      totalPointCount := totalPointCount + pointCount;
    }

    /** The loop of addPoints: point i of the frame, read as (x, y, z, 1) and
        multiplied by the model matrix, goes to slots base + 3i .. base + 3i + 2. */
    method Fill(base: nat, xyz: seq<real>, pointCount: nat, modelMatrix: Mat4)
      requires 3 * pointCount <= |xyz| && base + 3 * pointCount <= vertexBuffer.Length
      modifies vertexBuffer
      ensures Filled(vertexBuffer[..], old(vertexBuffer[..]), base, modelMatrix, xyz, pointCount)
    {
      ghost var orig := vertexBuffer[..];
      var i := 0;
      while i < pointCount
        invariant 0 <= i <= pointCount
        invariant Filled(vertexBuffer[..], orig, base, modelMatrix, xyz, i)
      {
        StorePoint(orig, base, xyz, i, modelMatrix);
        i := i + 1;
      }
    }

    /** One pass of the addPoints loop: point i is read as (x, y, z, 1), multiplied
        by the model matrix, and its x, y, z go to slots base + 3i .. base + 3i + 2. */
    method StorePoint(ghost orig: seq<real>, base: nat, xyz: seq<real>, i: nat, modelMatrix: Mat4)
      requires 3 * i + 3 <= |xyz| && base + 3 * i + 3 <= vertexBuffer.Length
      requires Filled(vertexBuffer[..], orig, base, modelMatrix, xyz, i)
      modifies vertexBuffer
      ensures Filled(vertexBuffer[..], orig, base, modelMatrix, xyz, i + 1)
    {
      var pointVec: Vec4 := [xyz[3 * i], xyz[3 * i + 1], xyz[3 * i + 2], 1.0];
      var outVec := MultiplyMV(modelMatrix, pointVec);
      ApplyPointAt(modelMatrix, xyz, i);
      FillStep(vertexBuffer[..], orig, base, modelMatrix, xyz, i);
      Put(base + 3 * i, outVec[..3]);
    }

    /** The three vertexBuffer.put calls of one point: slots at .. at+2 take p. */
    method Put(at: nat, p: Vec3)
      requires at + 3 <= vertexBuffer.Length
      modifies vertexBuffer
      ensures vertexBuffer[..] == old(vertexBuffer[..])[..at] + p + old(vertexBuffer[..])[at + 3..]
    {
      vertexBuffer[at] := p[0];
      vertexBuffer[at + 1] := p[1];
      vertexBuffer[at + 2] := p[2];
      assert vertexBuffer[..] == old(vertexBuffer[..])[..at] + p + old(vertexBuffer[..])[at + 3..];
    }

    /** clear: the count drops to zero; the store is left as it was. */
    method Clear()
      requires Valid()
      modifies this
      ensures Valid()
      ensures Model() == Cleared(old(Model()))
    {
      totalPointCount := 0;
    }

    method GetPointCount() returns (n: nat)
      ensures n == totalPointCount
    {
      n := totalPointCount;
    }

    /** The appends of one loop pass of writeToStream: x, ',', y, ',', z, '\n' of
        point i, read from slots 3i .. 3i + 2. */
    method FormatPoint(fmt: real -> string, i: nat) returns (line: string)
      requires Valid() && i < totalPointCount
      ensures line == Line(Model().Points(), fmt, i)
    {
      line := fmt(vertexBuffer[3 * i]) + "," + fmt(vertexBuffer[3 * i + 1]) + "," + fmt(vertexBuffer[3 * i + 2]) + "\n";
    }

    /** writeToStream: the export text of the valid points, handed to the writer in
        batches. The writes, in order, make up exactly the unbatched text; write j
        holds the lines of points ChunkStart(j) up to ChunkEnd(j, count); no write
        is empty. Only the first count * 3 slots of the store take part. */
    method WriteToStream(fmt: real -> string) returns (writes: seq<string>)
      requires Valid()
      ensures Concat(writes) == Text(Model().Points(), fmt, totalPointCount)
      ensures |writes| == ChunkCount(totalPointCount)
      ensures forall j :: 0 <= j < |writes| ==>
        writes[j] != [] && writes[j] == Lines(Model().Points(), fmt, ChunkStart(j), ChunkEnd(j, totalPointCount))
    {
      var n := totalPointCount;
      ghost var s := Model().Points();
      ghost var ls := LineSeq(s, fmt, n);
      LineSeqNonEmpty(s, fmt, n);
      var str := "";
      writes := [];
      var i := 0;
      while i < n
        invariant i <= n
        invariant ExportState(ls, i, writes, str)
      {
        var line := FormatPoint(fmt, i);
        LineSeqAt(s, fmt, n, i);
        ExportStep(ls, i, writes, str);
        str := str + line;
        if i % FLUSH_INTERVAL == 0 {
          writes := writes + [str];
          str := "";
        }
        i := i + 1;
      }
      ExportFinished(s, fmt, n, writes, str);
      if |str| > 0 {
        writes := writes + [str];
      }
    }
  }
}
