/** The capture-mode controller of PCRenderer.java: three modes decide whether a
    new frame replaces the buffer (REALTIME), extends it (ACCUMULATING) or is
    ignored (STOPPED). Entering REALTIME or ACCUMULATING empties the buffer. */
module Capture {
  import opened VertexMath
  import opened PointBuffer

  const STATE_REALTIME: int := 0
  const STATE_ACCUMULATING: int := 1
  const STATE_STOPPED: int := 2

  /** One depth frame as handed to addPointCloud: the decoded XYZ floats, the
      number of points, and the model matrix the frame is placed with. */
  datatype Frame = Frame(xyz: seq<real>, pointCount: nat, modelMatrix: Mat4)
  {
    /** The payload holds at least pointCount triples. */
    predicate Valid()
    {
      3 * pointCount <= |xyz|
    }
  }

  /** The buffer after setState(s): emptied on entry to ACCUMULATING or REALTIME,
      kept as it is for any other mode. */
  function AfterSetState(s: int, c: Cloud): Cloud
    requires c.Valid()
  {
    if s == STATE_ACCUMULATING then Cleared(c)
    else if s == STATE_REALTIME then Cleared(c)
    else c
  }

  /** The buffer after addPointCloud(f) in mode `state`. */
  function AfterAddPointCloud(state: int, c: Cloud, f: Frame): Cloud
    requires c.Valid() && f.Valid()
  {
    if state == STATE_STOPPED then c
    else
      var start := if state == STATE_REALTIME then Cleared(c) else c;
      Appended(start, f.xyz, f.pointCount, f.modelMatrix)
  }

  predicate ValidFrames(frames: seq<Frame>)
  {
    forall k :: 0 <= k < |frames| ==> frames[k].Valid()
  }

  /** The buffer after addPointCloud has been called, in mode `state`, with each of
      the frames in order. */
  function AfterFrames(state: int, c: Cloud, frames: seq<Frame>): (r: Cloud)
    requires c.Valid() && ValidFrames(frames)
    ensures r.Valid()
    decreases |frames|
  {
    if frames == [] then c
    else
      var last := frames[|frames| - 1];
      AfterAddPointCloud(state, AfterFrames(state, c, frames[..|frames| - 1]), last)
  }

  /** The number of points in all the frames together. */
  function TotalPoints(frames: seq<Frame>): nat
  {
    if frames == [] then 0
    else TotalPoints(frames[..|frames| - 1]) + frames[|frames| - 1].pointCount
  }

  /** The transformed points of all the frames, frame after frame. */
  function AllTransformed(frames: seq<Frame>): (r: seq<real>)
    requires ValidFrames(frames)
    ensures |r| == 3 * TotalPoints(frames)
  {
    if frames == [] then []
    else
      var last := frames[|frames| - 1];
      AllTransformed(frames[..|frames| - 1]) + TransformFrame(last.modelMatrix, last.xyz, last.pointCount)
  }

  /** setState(ACCUMULATING) and setState(REALTIME) leave no points; setState with
      any other value, STOPPED among them, leaves count and store as they were.
      The store itself is never touched. */
  lemma SetStateEffect(s: int, c: Cloud)
    requires c.Valid()
    ensures var r := AfterSetState(s, c);
      && r.Valid() && r.storage == c.storage
      && (s == STATE_ACCUMULATING || s == STATE_REALTIME ==> r.count == 0 && r.Points() == [])
      && (s != STATE_ACCUMULATING && s != STATE_REALTIME ==> r == c)
  {
  }

  /** In STOPPED, a frame leaves the buffer exactly as it was. */
  lemma {:induction false} StoppedIgnoresFrames(c: Cloud, frames: seq<Frame>)
    requires c.Valid() && ValidFrames(frames)
    ensures AfterFrames(STATE_STOPPED, c, frames) == c
    decreases |frames|
  {
    if frames != [] {
      StoppedIgnoresFrames(c, frames[..|frames| - 1]);
    }
  }

  /** In REALTIME, a frame replaces the buffer: afterwards it holds exactly the
      frame's points, or none at all when the frame alone exceeds the capacity,
      since the clear comes before the rejected append. */
  lemma RealtimeReplaces(c: Cloud, f: Frame)
    requires c.Valid() && f.Valid()
    ensures var r := AfterAddPointCloud(STATE_REALTIME, c, f);
      && r.count == (if f.pointCount <= MAX_POINTS then f.pointCount else 0)
      && r.Points() == (if f.pointCount <= MAX_POINTS then TransformFrame(f.modelMatrix, f.xyz, f.pointCount) else [])
  {
    var cleared := Cleared(c);
    assert cleared.count == 0 && cleared.Points() == [];
  }

  /** After any non-empty run of REALTIME frames, the buffer holds the last frame
      only: whatever came before is gone. */
  lemma RealtimeKeepsLastFrame(c: Cloud, frames: seq<Frame>)
    requires c.Valid() && ValidFrames(frames) && frames != []
    ensures var r := AfterFrames(STATE_REALTIME, c, frames);
      var f := frames[|frames| - 1];
      && r.count == (if f.pointCount <= MAX_POINTS then f.pointCount else 0)
      && r.Points() == (if f.pointCount <= MAX_POINTS then TransformFrame(f.modelMatrix, f.xyz, f.pointCount) else [])
  {
    var before := AfterFrames(STATE_REALTIME, c, frames[..|frames| - 1]);
    RealtimeReplaces(before, frames[|frames| - 1]);
  }

  /** In ACCUMULATING, a frame that fits is appended after the points already held;
      one that does not fit changes nothing. The count never drops. */
  lemma AccumulatingAppends(c: Cloud, f: Frame)
    requires c.Valid() && f.Valid()
    ensures var r := AfterAddPointCloud(STATE_ACCUMULATING, c, f);
      && (c.count + f.pointCount <= MAX_POINTS ==>
            r.count == c.count + f.pointCount
            && r.Points() == c.Points() + TransformFrame(f.modelMatrix, f.xyz, f.pointCount))
      && (c.count + f.pointCount > MAX_POINTS ==> r == c)
  {
  }

  /** However many ACCUMULATING frames arrive, fitting or not, the points held
      before are kept, in place, at the front of the buffer. */
  lemma {:induction false} AccumulatingKeepsPoints(c: Cloud, frames: seq<Frame>)
    requires c.Valid() && ValidFrames(frames)
    ensures var r := AfterFrames(STATE_ACCUMULATING, c, frames);
      r.count >= c.count && r.Points()[..3 * c.count] == c.Points()
    decreases |frames|
  {
    if frames != [] {
      var before := AfterFrames(STATE_ACCUMULATING, c, frames[..|frames| - 1]);
      AccumulatingKeepsPoints(c, frames[..|frames| - 1]);
      AppendedKeepsEarlierPoints(before, frames[|frames| - 1].xyz, frames[|frames| - 1].pointCount, frames[|frames| - 1].modelMatrix);
      var r := AfterFrames(STATE_ACCUMULATING, c, frames);
      assert r.Points()[..3 * c.count] == r.Points()[..3 * before.count][..3 * c.count];
    }
  }

  /** One more ACCUMULATING frame, within capacity, extends a buffer that holds
      the points of c followed by `done` by the frame's transformed points. */
  lemma AccumulateOne(c: Cloud, before: Cloud, f: Frame, total: nat, done: seq<real>)
    requires c.Valid() && before.Valid() && f.Valid()
    requires before.count == c.count + total && before.Points() == c.Points() + done
    requires c.count + total + f.pointCount <= MAX_POINTS
    ensures var r := AfterAddPointCloud(STATE_ACCUMULATING, before, f);
      && r.count == c.count + (total + f.pointCount)
      && r.Points() == c.Points() + (done + TransformFrame(f.modelMatrix, f.xyz, f.pointCount))
  {
    AccumulatingAppends(before, f);
    var t := TransformFrame(f.modelMatrix, f.xyz, f.pointCount);
    assert (c.Points() + done) + t == c.Points() + (done + t);
  }

  /** While the capacity is not exceeded, accumulating a run of frames yields the
      earlier points followed by every frame's transformed points, in arrival order. */
  lemma {:induction false} AccumulatingSequence(c: Cloud, frames: seq<Frame>)
    requires c.Valid() && ValidFrames(frames)
    requires c.count + TotalPoints(frames) <= MAX_POINTS
    ensures var r := AfterFrames(STATE_ACCUMULATING, c, frames);
      && r.count == c.count + TotalPoints(frames)
      && r.Points() == c.Points() + AllTransformed(frames)
    decreases |frames|
  {
    if frames != [] {
      var init := frames[..|frames| - 1];
      var f := frames[|frames| - 1];
      var t := TransformFrame(f.modelMatrix, f.xyz, f.pointCount);
      AccumulatingSequence(c, init);
      var before := AfterFrames(STATE_ACCUMULATING, c, init);
      assert TotalPoints(frames) == TotalPoints(init) + f.pointCount;
      assert AllTransformed(frames) == AllTransformed(init) + t;
      assert AfterFrames(STATE_ACCUMULATING, c, frames) == AfterAddPointCloud(STATE_ACCUMULATING, before, f);
      AccumulateOne(c, before, f, TotalPoints(init), AllTransformed(init));
    }
  }

  /** The renderer of PCRenderer.java, reduced to the capture mode and the buffer
      it owns. The buffer is created when the drawing surface is, so it is absent
      between construction and onSurfaceCreated; each operation needs it only
      where the source dereferences it. */
  class PCRenderer {
    var pointCloud: PointCloud?
    var state: int

    /** A buffer, once there, is a well-formed one. */
    ghost predicate Valid()
      reads this, pointCloud
    {
      pointCloud != null ==> pointCloud.Valid()
    }

    /** The objects holding the buffer's state: none while there is no buffer. */
    ghost function Buffer(): set<object>
      reads this
    {
      if pointCloud == null then {} else {pointCloud, pointCloud.vertexBuffer}
    }

    /** A new renderer is in REALTIME and has no buffer yet. */
    constructor ()
      ensures Valid() && state == STATE_REALTIME && pointCloud == null
    {
      state := STATE_REALTIME;
      pointCloud := null;
    }

    /** The one step of onSurfaceCreated kept here: a new, empty buffer. */
    method OnSurfaceCreated()
      modifies this
      ensures Valid() && fresh(pointCloud) && fresh(pointCloud.vertexBuffer)
      ensures pointCloud.totalPointCount == 0 && state == old(state)
    {
      pointCloud := new PointCloud();
    }

    /** setState: the mode becomes s, and the buffer is cleared when s is
        ACCUMULATING or REALTIME; only then is the buffer touched. */
    method SetState(s: int)
      requires Valid()
      requires s == STATE_ACCUMULATING || s == STATE_REALTIME ==> pointCloud != null
      modifies this, Buffer()
      ensures Valid() && pointCloud == old(pointCloud)
      ensures state == s
      ensures old(pointCloud) != null ==>
        pointCloud.Model() == AfterSetState(s, old(pointCloud.Model()))
    {
      state := s;
      if s == STATE_ACCUMULATING {
        pointCloud.Clear();
      } else if s == STATE_REALTIME {
        pointCloud.Clear();
      }
    }

    method GetState() returns (s: int)
      ensures s == state
    {
      s := state;
    }

    /** addPointCloud: ignored in STOPPED; in REALTIME the buffer is cleared first;
        then the frame is appended under its model matrix. The matrix is taken as
        given: its construction from translation and rotation is not modelled. */
    method AddPointCloud(xyz: seq<real>, pointCount: nat, modelMatrix: Mat4)
      requires Valid() && 3 * pointCount <= |xyz|
      requires state != STATE_STOPPED ==> pointCloud != null
      modifies Buffer()
      ensures Valid() && state == old(state) && pointCloud == old(pointCloud)
      ensures old(pointCloud) != null ==>
        pointCloud.Model() == AfterAddPointCloud(state, old(pointCloud.Model()), Frame(xyz, pointCount, modelMatrix))
    {
      if state == STATE_STOPPED {
        return;
      }
      if state == STATE_REALTIME {
        pointCloud.Clear();
      }
      pointCloud.AddPoints(xyz, pointCount, modelMatrix);
    }

    /** getPointCount: the number of points in the buffer. */
    method GetPointCount() returns (n: nat)
      requires pointCloud != null
      ensures n == pointCloud.totalPointCount
    {
      n := pointCloud.GetPointCount();
    }
  }
}
