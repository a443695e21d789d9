# PointCloudJava capture core in Dafny

This project models the part of the PointCloudJava sample that decides what ends
up in the point cloud. The sample is an Android app. It takes depth frames from a
Tango device, transforms them into world space, and either shows the latest frame
or accumulates frames into one cloud. The cloud can be saved as a text file.

The model has three layers, one per source file:

- **The point buffer** (`PointCloud.java` → module `PointBuffer`, class
  `PointCloud`): a preallocated store of `MAX_POINTS * 3` floats plus a logical
  point count.
  - `addPoints` rejects a frame that would overflow the store. Otherwise it writes
    every point, transformed by the frame's model matrix with w = 1, after the
    valid points, and then raises the count.
  - `clear` resets the count only.
  - `writeToStream` renders the valid points as `x,y,z\n` lines and hands them to
    the writer in batches.
  - The class keeps the store as an `array<real>`. Its abstract value is a `Cloud`
    (count plus the whole store). Each method is tied to a pure function of the old
    value: `Appended` and `Cleared`.
  - The transform math of `android.opengl.Matrix.multiplyMV` is in module
    `VertexMath`.
  - The export format, its reader and the batching arithmetic are in module
    `TextExport`.
- **The capture-mode controller** (`PCRenderer.java` → module `Capture`, class
  `PCRenderer`): the modes REALTIME = 0, ACCUMULATING = 1 and STOPPED = 2.
  - `setState` clears the buffer when it enters ACCUMULATING or REALTIME.
  - `addPointCloud` ignores frames in STOPPED, replaces the buffer in REALTIME, and
    appends in ACCUMULATING.
  - The pure functions `AfterSetState`, `AfterAddPointCloud` and `AfterFrames` give
    the lemmas about runs of frames something to speak about.
- **The user commands** (`JPointCloud.java` → module `Commands`, class
  `JPointCloud`): the Start and Realtime click handlers and the rule that enables
  saving. They are paired with the pure `StartClicked`, `RealtimeClicked` and
  `SaveEnabled`, and with `Run`, which folds a sequence of button presses.

Floats are modelled as mathematical reals. How Java renders a float as text
(`StringBuilder.append(float)`) is a parameter `fmt: real -> string`. The
round-trip lemma `ReadBack` assumes two things about it: `fmt` never produces `,`
or `\n`, and a reader `num` recovers each exported coordinate from its rendering.

Behaviour of the code worth knowing:

- The Start button enters ACCUMULATING from STOPPED directly, clearing the buffer
  (`Commands.StartBeginsAccumulating`).
- The only way into STOPPED is Start pressed in ACCUMULATING
  (`Commands.RunStaysKnown`).
- `addPoints` returns nothing. A frame that does not fit is dropped silently,
  and nothing records that it was dropped.
- `setState` accepts any `int`. A value other than the three modes is stored and
  leaves the buffer as it is (`Capture.SetStateEffect`).
- The first write of `writeToStream` holds point 0 alone, because the flush test
  `i % 10000 == 0` already holds at `i = 0`. Every later write holds up to 10000
  points (`TextExport.ChunkStart`).

## Model

| member | source | states |
|---|---|---|
| VertexMath.ApplyPointAt | PointCloudJava/tangoUtils/src/main/java/com/projecttango/tangoutils/renderables/PointCloud.java:88-92 | the vector built from the three floats of point i with w = 1, multiplied by Matrix.multiplyMV and cut to x, y, z, is the transform of point i |
| VertexMath.AffineKeepsW | PointCloudJava/tangoUtils/src/main/java/com/projecttango/tangoutils/renderables/PointCloud.java:92-95 | for a model matrix whose bottom row is 0, 0, 0, 1, the product keeps w = 1, so storing only the first three components loses nothing |
| VertexMath.TransformFrameAt | PointCloudJava/tangoUtils/src/main/java/com/projecttango/tangoutils/renderables/PointCloud.java:87-95 | float 3i+c of a transformed frame is component c of the column-major product m * (x_i, y_i, z_i, 1), where x_i, y_i, z_i are the i-th triple read in order from the payload |
| VertexMath.TransformFrameIdentity | PointCloudJava/tangoUtils/src/main/java/com/projecttango/tangoutils/renderables/PointCloud.java:87-95 | under the identity model matrix the frame is stored exactly as read |
| PointBuffer.Appended | PointCloudJava/tangoUtils/src/main/java/com/projecttango/tangoutils/renderables/PointCloud.java:77-98 | a frame that would overflow MAX_POINTS leaves count and store untouched; an accepted one raises the count by exactly pointCount, makes the valid points the old ones followed by the transformed frame, and leaves the store past the new count as it was |
| PointBuffer.Cleared | PointCloudJava/tangoUtils/src/main/java/com/projecttango/tangoutils/renderables/PointCloud.java:100-102 | clearing leaves no valid points and the store itself unchanged |
| PointBuffer.ClearIdempotent | PointCloudJava/tangoUtils/src/main/java/com/projecttango/tangoutils/renderables/PointCloud.java:100-102 | clearing twice equals clearing once |
| PointBuffer.AppendedAt | PointCloudJava/tangoUtils/src/main/java/com/projecttango/tangoutils/renderables/PointCloud.java:83-96 | after an accepted append, slot (old + i) * 3 + k holds component k of modelMatrix * (x_i, y_i, z_i, 1) |
| PointBuffer.AppendedKeepsEarlierPoints | PointCloudJava/tangoUtils/src/main/java/com/projecttango/tangoutils/renderables/PointCloud.java:83-95 | accepted or rejected, an append never lowers the count and never changes the points already stored |
| PointBuffer.FillStep | PointCloudJava/tangoUtils/src/main/java/com/projecttango/tangoutils/renderables/PointCloud.java:93-95 | writing point i into its three slots extends the filled part of the store by exactly that point and leaves the rest alone |
| PointBuffer.PointCloud.constructor | PointCloudJava/tangoUtils/src/main/java/com/projecttango/tangoutils/renderables/PointCloud.java:62-75 | a new buffer has a fresh store of MAX_POINTS * 3 floats and count 0 |
| PointBuffer.PointCloud.AddPoints | PointCloudJava/tangoUtils/src/main/java/com/projecttango/tangoutils/renderables/PointCloud.java:77-98 | the new buffer value is Appended(old value, frame); the capacity invariant count <= MAX_POINTS is kept |
| PointBuffer.PointCloud.Fill | PointCloudJava/tangoUtils/src/main/java/com/projecttango/tangoutils/renderables/PointCloud.java:83-96 | the loop of addPoints writes the transformed frame from slot base onward and changes no other slot |
| PointBuffer.PointCloud.StorePoint | PointCloudJava/tangoUtils/src/main/java/com/projecttango/tangoutils/renderables/PointCloud.java:88-95 | one loop pass: point i is read as (x, y, z, 1), multiplied by the model matrix, and its x, y, z extend the filled part of the store |
| PointBuffer.PointCloud.Put | PointCloudJava/tangoUtils/src/main/java/com/projecttango/tangoutils/renderables/PointCloud.java:93-95 | the three put calls overwrite exactly slots at .. at+2 |
| PointBuffer.PointCloud.Clear | PointCloudJava/tangoUtils/src/main/java/com/projecttango/tangoutils/renderables/PointCloud.java:100-102 | the new buffer value is Cleared(old value): count 0, store untouched |
| PointBuffer.PointCloud.GetPointCount | PointCloudJava/tangoUtils/src/main/java/com/projecttango/tangoutils/renderables/PointCloud.java:121-123 | returns the count |
| PointBuffer.PointCloud.FormatPoint | PointCloudJava/tangoUtils/src/main/java/com/projecttango/tangoutils/renderables/PointCloud.java:130-135 | the six appends of one pass give the export line of point i, read from slots 3i .. 3i+2 |
| PointBuffer.PointCloud.WriteToStream | PointCloudJava/tangoUtils/src/main/java/com/projecttango/tangoutils/renderables/PointCloud.java:125-144 | the writes, in order, concatenate to exactly the unbatched text of the count valid points; there are ChunkCount(count) of them; write j holds the lines of points ChunkStart(j) up to ChunkEnd(j, count) and is never empty; only the first count * 3 slots are read |
| TextExport.ParseText | PointCloudJava/tangoUtils/src/main/java/com/projecttango/tangoutils/renderables/PointCloud.java:129-135 | the text of n points splits into exactly n lines, and line i splits at its commas into the three renderings of point i |
| TextExport.ReadBack | PointCloudJava/tangoUtils/src/main/java/com/projecttango/tangoutils/renderables/PointCloud.java:129-135 | reading the exported text back, with a reader that recovers each exported coordinate from its rendering, yields exactly the 3n floats of the n points |
| TextExport.NumbersOfRecords | PointCloudJava/tangoUtils/src/main/java/com/projecttango/tangoutils/renderables/PointCloud.java:130-134 | records holding the rendered coordinates of n points read back to those 3n floats, in order, when each of those floats is recovered from its rendering |
| TextExport.SplitText | PointCloudJava/tangoUtils/src/main/java/com/projecttango/tangoutils/renderables/PointCloud.java:130-135 | splitting the text of n points at its line breaks gives n lines, line i being the comma-joined coordinates of point i |
| TextExport.WritesBeforeClosed | PointCloudJava/tangoUtils/src/main/java/com/projecttango/tangoutils/renderables/PointCloud.java:136-139 | the number of writes made before point i > 0 is (i - 1) / 10000 + 1 |
| TextExport.WritesBeforeStep | PointCloudJava/tangoUtils/src/main/java/com/projecttango/tangoutils/renderables/PointCloud.java:136-139 | point i causes a write exactly when i % 10000 == 0, and that write ends right after point i |
| TextExport.WritesAtEnd | PointCloudJava/tangoUtils/src/main/java/com/projecttango/tangoutils/renderables/PointCloud.java:141-143 | after the last point, a non-empty remainder adds exactly one write, which reaches the end of the text |
| TextExport.ExportStep | PointCloudJava/tangoUtils/src/main/java/com/projecttango/tangoutils/renderables/PointCloud.java:129-140 | one loop pass keeps the exporter invariant: past writes are the complete batches, the pending text is the lines since the last write, and together they are the text so far |
| TextExport.FlushStep | PointCloudJava/tangoUtils/src/main/java/com/projecttango/tangoutils/renderables/PointCloud.java:136-139 | writing the pending text at a batch boundary keeps the exporter invariant with an empty pending text |
| TextExport.ExportDone | PointCloudJava/tangoUtils/src/main/java/com/projecttango/tangoutils/renderables/PointCloud.java:141-143 | the final remainder write completes the batches: they concatenate to the whole text and number ChunkCount(n), none empty |
| TextExport.ExportFinished | PointCloudJava/tangoUtils/src/main/java/com/projecttango/tangoutils/renderables/PointCloud.java:129-143 | the same, with the batches read back as the line ranges of points |
| TextExport.LinesAsJoin | PointCloudJava/tangoUtils/src/main/java/com/projecttango/tangoutils/renderables/PointCloud.java:129-135 | the lines of a range of points are the corresponding export lines joined in order |
| Capture.SetStateEffect | PointCloudJava/pointCloudJava/src/main/java/com/projecttango/pointcloudjava/PCRenderer.java:58-65 | setState(ACCUMULATING) and setState(REALTIME) leave no points; every other value, STOPPED among them, leaves count and store exactly as they were |
| Capture.StoppedIgnoresFrames | PointCloudJava/pointCloudJava/src/main/java/com/projecttango/pointcloudjava/PCRenderer.java:106-108 | in STOPPED, any sequence of frames leaves the buffer unchanged |
| Capture.RealtimeReplaces | PointCloudJava/pointCloudJava/src/main/java/com/projecttango/pointcloudjava/PCRenderer.java:109-113 | in REALTIME a frame leaves count = pointCount and exactly its transformed points when pointCount <= MAX_POINTS, and count 0 otherwise |
| Capture.RealtimeKeepsLastFrame | PointCloudJava/pointCloudJava/src/main/java/com/projecttango/pointcloudjava/PCRenderer.java:109-113 | after a run of REALTIME frames only the last frame is held; earlier frames are discarded |
| Capture.AccumulatingAppends | PointCloudJava/pointCloudJava/src/main/java/com/projecttango/pointcloudjava/PCRenderer.java:109-113 | in ACCUMULATING a frame that fits is appended without clearing, so the count grows by pointCount; one that does not fit changes nothing |
| Capture.AccumulatingKeepsPoints | PointCloudJava/pointCloudJava/src/main/java/com/projecttango/pointcloudjava/PCRenderer.java:109-113 | over any run of ACCUMULATING frames the count never drops and the earlier points stay in place |
| Capture.AccumulatingSequence | PointCloudJava/pointCloudJava/src/main/java/com/projecttango/pointcloudjava/PCRenderer.java:109-113 | within capacity, accumulating frames gives the earlier points followed by every frame's transformed points in arrival order, with the count being the sum of the frames' counts |
| Capture.PCRenderer.constructor | PointCloudJava/pointCloudJava/src/main/java/com/projecttango/pointcloudjava/PCRenderer.java:71-73 | a new renderer is in STATE_REALTIME (0) and has no buffer until onSurfaceCreated |
| Capture.PCRenderer.OnSurfaceCreated | PointCloudJava/pointCloudJava/src/main/java/com/projecttango/pointcloudjava/PCRenderer.java:82 | the renderer gets a fresh, empty buffer; the mode is unchanged |
| Capture.PCRenderer.SetState | PointCloudJava/pointCloudJava/src/main/java/com/projecttango/pointcloudjava/PCRenderer.java:58-65 | the mode becomes s, so a following getState returns s; the buffer becomes AfterSetState(s, old buffer); the buffer is needed only for ACCUMULATING and REALTIME, the two values that clear it |
| Capture.PCRenderer.GetState | PointCloudJava/pointCloudJava/src/main/java/com/projecttango/pointcloudjava/PCRenderer.java:67-69 | returns the mode |
| Capture.PCRenderer.AddPointCloud | PointCloudJava/pointCloudJava/src/main/java/com/projecttango/pointcloudjava/PCRenderer.java:104-114 | the mode is unchanged and the buffer becomes AfterAddPointCloud(mode, old buffer, frame): untouched in STOPPED, cleared then appended in REALTIME, appended in ACCUMULATING; in STOPPED no buffer is needed and nothing is touched |
| Capture.PCRenderer.GetPointCount | PointCloudJava/pointCloudJava/src/main/java/com/projecttango/pointcloudjava/PCRenderer.java:116-118 | returns the buffer's count |
| Commands.StartBeginsAccumulating | PointCloudJava/pointCloudJava/src/main/java/com/projecttango/pointcloudjava/JPointCloud.java:106-108 | Start pressed in REALTIME or STOPPED enters ACCUMULATING with an empty buffer |
| Commands.StartStopsAccumulating | PointCloudJava/pointCloudJava/src/main/java/com/projecttango/pointcloudjava/JPointCloud.java:109-112 | Start pressed in ACCUMULATING enters STOPPED and keeps every accumulated point |
| Commands.RealtimeWhileRealtime | PointCloudJava/pointCloudJava/src/main/java/com/projecttango/pointcloudjava/JPointCloud.java:119-121 | Realtime pressed in REALTIME changes neither the mode nor the buffer |
| Commands.RealtimeFromOtherMode | PointCloudJava/pointCloudJava/src/main/java/com/projecttango/pointcloudjava/JPointCloud.java:119-120 | Realtime pressed in ACCUMULATING or STOPPED enters REALTIME with an empty buffer |
| Commands.SaveAfterStart | PointCloudJava/pointCloudJava/src/main/java/com/projecttango/pointcloudjava/JPointCloud.java:106-112 | after Start, saving is enabled exactly when Start was pressed in ACCUMULATING |
| Commands.RunStaysKnown | PointCloudJava/pointCloudJava/src/main/java/com/projecttango/pointcloudjava/JPointCloud.java:103-123 | from any of the three modes, every sequence of presses ends in one of the three; when saving is enabled afterwards, the last press was Start in ACCUMULATING and the accumulated points are kept |
| Commands.JPointCloud.OnStartClick | PointCloudJava/pointCloudJava/src/main/java/com/projecttango/pointcloudjava/JPointCloud.java:103-114 | the mode becomes ACCUMULATING, or STOPPED when it was ACCUMULATING; mode and buffer become StartClicked of the old ones; the buffer is needed only on entry to ACCUMULATING; the button caption becomes "stop" on entering ACCUMULATING and "start" on entering STOPPED |
| Commands.JPointCloud.OnRealtimeClick | PointCloudJava/pointCloudJava/src/main/java/com/projecttango/pointcloudjava/JPointCloud.java:116-123 | the mode becomes REALTIME; mode and buffer become RealtimeClicked of the old ones; in REALTIME nothing changes and no buffer is needed |
| Commands.JPointCloud.OnPrepareOptionsMenu | PointCloudJava/pointCloudJava/src/main/java/com/projecttango/pointcloudjava/JPointCloud.java:231-235 | the save item is enabled exactly when the mode is STOPPED |

## Left out

- Tango service plumbing is not modelled, because it consists of foreign calls. This covers connection, listeners, pose queries, extrinsics, permissions, the activity lifecycle and the frame-rate text of JPointCloud.java.
- Decoding the depth payload from the file descriptor is I/O. The payload enters the model already decoded, as the float sequence `xyz`.
- The model matrix of a frame is a parameter of `AddPointCloud`. `ModelMatCalculator` builds it from translation and rotation, and that code is not part of this model.
- OpenGL work is graphics-library glue and is not modelled. This covers shaders, `draw`, `onDrawFrame`, `onSurfaceChanged`, the view and projection matrices, and the Renderable model matrix set in the PointCloud constructor.
- `saveData` and its background `SaveDataTask` are not modelled: they consist of asynchronous execution, a date-based file name and file streams. The writer is replaced by the sequence of strings it receives. An `IOException` from the writer is not modelled.
- `synchronized` and thread interleavings are not modelled. The model is sequential.
- IEEE float arithmetic is not modelled. The transform is exact real arithmetic, and float-to-text formatting is the parameter `fmt`.
- `PointBuffer.PointCloud.AddPoints`: requires the payload to hold at least `pointCount` triples. With a shorter byte array, the source throws `BufferUnderflowException` part-way through the loop, after overwriting stale slots and without raising the count. The only caller reads exactly `xyzCount * 3 * 4` bytes.
- `PointBuffer.PointCloud.AddPoints`: does not model Java `int` overflow of `totalPointCount + pointCount`, and does not model a negative `pointCount`. `pointCount` is `nat`. A frame of 2^31 points cannot be delivered as a Java byte array. A negative count would pass the capacity check, skip the loop and lower `totalPointCount`, possibly below 0. It cannot arrive from the only caller, whose `new byte[xyzCount * 3 * 4]` throws first for a negative `xyzCount`.
- `Capture.PCRenderer.SetState`, `Capture.PCRenderer.AddPointCloud`, `Capture.PCRenderer.GetPointCount`, `Commands.JPointCloud.OnStartClick`, `Commands.JPointCloud.OnRealtimeClick`: require the buffer to exist exactly where the source dereferences it. These are `setState(ACCUMULATING)`, `setState(REALTIME)`, `addPointCloud` outside STOPPED, `getPointCount`, Start outside ACCUMULATING and Realtime outside REALTIME. Before `onSurfaceCreated` those calls throw a `NullPointerException` in the source; that error path is not modelled. Every other call works without a buffer, and the model allows it.
- `Capture.PCRenderer.OnSurfaceCreated`: only the creation of the buffer is kept. The grid, the camera frustum and the GL state set there are left out.
- `Commands.JPointCloud.constructor`: the initial caption of the Start button comes from the layout resources, so it is a parameter.
- The Blender import script is not modelled. It is not part of the capture core.
