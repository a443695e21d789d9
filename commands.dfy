/** The user commands of JPointCloud.java: the Start button toggles between
    ACCUMULATING and STOPPED (entering ACCUMULATING from REALTIME or STOPPED), the
    Realtime button returns to REALTIME, and saving is offered only in STOPPED. */
module Commands {
  import opened PointBuffer
  import opened Capture

  /** The caption of the Start button. */
  datatype ButtonText = StartText | StopText

  /** The two buttons. */
  datatype Command = StartPressed | RealtimePressed

  /** What the renderer holds: its mode and its buffer. */
  datatype Status = Status(state: int, cloud: Cloud)
  {
    ghost predicate Valid()
    {
      cloud.Valid()
    }
  }

  /** The Start handler: enter ACCUMULATING unless already there, in which case
      enter STOPPED. */
  function StartClicked(st: Status): Status
    requires st.Valid()
  {
    if st.state != STATE_ACCUMULATING then Status(STATE_ACCUMULATING, AfterSetState(STATE_ACCUMULATING, st.cloud))
    else Status(STATE_STOPPED, AfterSetState(STATE_STOPPED, st.cloud))
  }

  /** The Realtime handler: enter REALTIME unless already there. */
  function RealtimeClicked(st: Status): Status
    requires st.Valid()
  {
    if st.state != STATE_REALTIME then Status(STATE_REALTIME, AfterSetState(STATE_REALTIME, st.cloud))
    else st
  }

  /** onPrepareOptionsMenu: the save item is enabled in STOPPED only. */
  predicate SaveEnabled(state: int)
  {
    state == STATE_STOPPED
  }

  function Press(st: Status, c: Command): (r: Status)
    requires st.Valid()
    ensures r.Valid()
  {
    match c
    case StartPressed => StartClicked(st)
    case RealtimePressed => RealtimeClicked(st)
  }

  /** The status after the buttons have been pressed in the order given. */
  function Run(st: Status, cmds: seq<Command>): (r: Status)
    requires st.Valid()
    ensures r.Valid()
    decreases |cmds|
  {
    if cmds == [] then st else Press(Run(st, cmds[..|cmds| - 1]), cmds[|cmds| - 1])
  }

  /** One of the three modes. */
  predicate KnownState(s: int)
  {
    s == STATE_REALTIME || s == STATE_ACCUMULATING || s == STATE_STOPPED
  }

  /** Start pressed in REALTIME or STOPPED: ACCUMULATING, with an empty buffer. */
  lemma StartBeginsAccumulating(st: Status)
    requires st.Valid() && st.state != STATE_ACCUMULATING
    ensures var r := StartClicked(st);
      r.state == STATE_ACCUMULATING && r.cloud.count == 0 && r.cloud.storage == st.cloud.storage
  {
  }

  /** Start pressed in ACCUMULATING: STOPPED, with every accumulated point kept. */
  lemma StartStopsAccumulating(st: Status)
    requires st.Valid() && st.state == STATE_ACCUMULATING
    ensures StartClicked(st) == Status(STATE_STOPPED, st.cloud)
  {
  }

  /** Realtime pressed in REALTIME changes nothing, the buffer included. */
  lemma RealtimeWhileRealtime(st: Status)
    requires st.Valid() && st.state == STATE_REALTIME
    ensures RealtimeClicked(st) == st
  {
  }

  /** Realtime pressed in any other mode: REALTIME, with an empty buffer. */
  lemma RealtimeFromOtherMode(st: Status)
    requires st.Valid() && st.state != STATE_REALTIME
    ensures var r := RealtimeClicked(st);
      r.state == STATE_REALTIME && r.cloud.count == 0 && r.cloud.storage == st.cloud.storage
  {
  }

  /** Saving becomes possible through Start exactly when Start stops an
      accumulation. */
  lemma SaveAfterStart(st: Status)
    requires st.Valid()
    ensures SaveEnabled(StartClicked(st).state) <==> st.state == STATE_ACCUMULATING
  {
  }

  /** From any of the three modes, any sequence of button presses ends in one of
      the three modes; and when the save item is enabled afterwards, the last press
      was Start, from ACCUMULATING, with the points of that accumulation kept. */
  lemma {:induction false} RunStaysKnown(st: Status, cmds: seq<Command>)
    requires st.Valid() && KnownState(st.state)
    ensures KnownState(Run(st, cmds).state)
    ensures cmds != [] && SaveEnabled(Run(st, cmds).state) ==>
      var before := Run(st, cmds[..|cmds| - 1]);
      cmds[|cmds| - 1] == StartPressed && before.state == STATE_ACCUMULATING
      && Run(st, cmds).cloud == before.cloud
    decreases |cmds|
  {
    if cmds != [] {
      RunStaysKnown(st, cmds[..|cmds| - 1]);
    }
  }

  /** The activity of JPointCloud.java, reduced to its renderer and the caption of
      its Start button. */
  class JPointCloud {
    const mRenderer: PCRenderer
    var startButtonText: ButtonText

    ghost predicate Valid()
      reads this, mRenderer, mRenderer.pointCloud
    {
      mRenderer.Valid()
    }

    constructor (renderer: PCRenderer, text: ButtonText)
      ensures mRenderer == renderer && startButtonText == text
    {
      mRenderer := renderer;
      startButtonText := text;
    }

    /** The onClick handler of the Start button. The buffer is needed only when
        it is cleared on entry to ACCUMULATING. */
    method OnStartClick()
      requires Valid()
      requires mRenderer.state != STATE_ACCUMULATING ==> mRenderer.pointCloud != null
      modifies this, mRenderer, mRenderer.Buffer()
      ensures Valid() && mRenderer.pointCloud == old(mRenderer.pointCloud)
      ensures mRenderer.state == (if old(mRenderer.state) != STATE_ACCUMULATING then STATE_ACCUMULATING else STATE_STOPPED)
      ensures old(mRenderer.pointCloud) != null ==>
        Status(mRenderer.state, mRenderer.pointCloud.Model())
        == StartClicked(Status(old(mRenderer.state), old(mRenderer.pointCloud.Model())))
      ensures startButtonText == (if old(mRenderer.state) != STATE_ACCUMULATING then StopText else StartText)
    {
      var state := mRenderer.GetState();
      if state != STATE_ACCUMULATING {
        mRenderer.SetState(STATE_ACCUMULATING);
        startButtonText := StopText;
      } else {
        mRenderer.SetState(STATE_STOPPED);
        startButtonText := StartText;
      }
    }

    /** The onClick handler of the Realtime button. In REALTIME it does nothing,
        so the buffer is needed only in the other modes. */
    method OnRealtimeClick()
      requires Valid()
      requires mRenderer.state != STATE_REALTIME ==> mRenderer.pointCloud != null
      modifies mRenderer, mRenderer.Buffer()
      ensures Valid() && mRenderer.pointCloud == old(mRenderer.pointCloud)
      ensures mRenderer.state == STATE_REALTIME
      ensures old(mRenderer.state) == STATE_REALTIME ==>
        unchanged(mRenderer) && unchanged(mRenderer.Buffer())
      ensures old(mRenderer.pointCloud) != null ==>
        Status(mRenderer.state, mRenderer.pointCloud.Model())
        == RealtimeClicked(Status(old(mRenderer.state), old(mRenderer.pointCloud.Model())))
    {
      var state := mRenderer.GetState();
      if state != STATE_REALTIME {
        mRenderer.SetState(STATE_REALTIME);
      }
    }

    /** onPrepareOptionsMenu: whether the save item is enabled. */
    method OnPrepareOptionsMenu() returns (saveEnabled: bool)
      ensures saveEnabled <==> mRenderer.state == STATE_STOPPED
    {
      var state := mRenderer.GetState();
      saveEnabled := state == STATE_STOPPED;
    }
  }
}
