/**
 * The screen picker's session (main.js): the globals `isPicking` and
 * `stream`, the pick button, and the handlers that change them. The capture
 * itself (`getDisplayMedia`) is an outcome handed in by the caller; what the
 * browser still captures is ghost state, so that a stream the page forgets
 * to stop can be seen.
 */
module PickingSession {
  import opened Wrappers
  import Canvas
  import ScreenColor
  import ScreenSampling

  /** A capture stream the browser hands out, by identity. */
  type StreamId = nat

  /** How one `getDisplayMedia` request settles. */
  datatype CaptureOutcome =
    | Denied
      // the promise rejects: permission refused or no capture support
    | Granted(id: StreamId, hasVideoTrack: bool)
      // it resolves; without a video track `getVideoTracks()[0]` is undefined and the
      // listener registration throws after `stream` has been assigned. Audio is not
      // requested, so such a stream holds no track at all and captures nothing

  /** The streams an optional reference holds. */
  function Held(s: Option<StreamId>): set<StreamId> {
    if s.Some? then {s.value} else {}
  }

  class Picker {
    var isPicking: bool
    var stream: Option<StreamId>
    var pickBtnDisabled: bool
    var pickBtnLabel: string
    /** The overlay is un-hidden and the magnifier displayed. */
    var overlayShown: bool
    /** `screenVideo.srcObject`. */
    var videoSource: Option<StreamId>
    var canvasWidth: nat
    var canvasHeight: nat
    /** The hex code last handed to `updateColorDisplay` (and to the copy button). */
    var shownHex: Option<seq<char>>
    /** `startPicking` calls suspended at their `await`. */
    ghost var pending: nat
    /** Streams the browser is still capturing. */
    ghost var capturing: set<StreamId>
    /** Streams whose video track carries the 'ended' listener (the browser's listener registry). */
    var watched: set<StreamId>

    /**
     * The session invariant: while picking there is a stream, it is still
     * being captured, listened to and shown in the video element, and the button is
     * disabled; overlay and label follow `isPicking`.
     */
    ghost predicate Valid()
      reads this
    {
      && (isPicking ==> stream.Some? && stream.value in capturing && stream.value in watched && pickBtnDisabled)
      && overlayShown == isPicking
      && pickBtnLabel == (if isPicking then "Picking..." else "Pick")
      && videoSource == (if isPicking then stream else None)
    }

    /** The page as loaded: idle, button enabled; the canvas size comes from the page markup. */
    constructor (width: nat, height: nat)
      ensures Valid()
      ensures !isPicking && stream.None? && !pickBtnDisabled && shownHex.None?
      ensures canvasWidth == width && canvasHeight == height
      ensures pending == 0 && capturing == {} && watched == {}
    {
      isPicking, stream := false, None;
      pickBtnDisabled, pickBtnLabel := false, "Pick";
      overlayShown, videoSource := false, None;
      canvasWidth, canvasHeight := width, height;
      shownHex := None;
      pending, capturing, watched := 0, {}, {};
    }

    /**
     * `stopPicking`: nothing unless picking; otherwise leave the picking
     * state, stop the held stream and drop it. The button is not touched.
     */
    method StopPicking()
      requires isPicking || Valid()
      modifies this
      ensures Valid()
      ensures !old(isPicking) ==> unchanged(this)
      ensures old(isPicking) ==> !isPicking && stream.None? && videoSource.None?
      ensures old(isPicking) ==> capturing == old(capturing) - Held(old(stream))
      ensures pickBtnDisabled == old(pickBtnDisabled) && shownHex == old(shownHex)
      ensures canvasWidth == old(canvasWidth) && canvasHeight == old(canvasHeight)
      ensures pending == old(pending) && watched == old(watched)
    {
      if !isPicking {
        return;
      }
      isPicking := false;
      overlayShown := false;
      if stream.Some? {
        capturing := capturing - {stream.value};
        stream := None;
      }
      videoSource := None;
      pickBtnLabel := "Pick";
    }

    /**
     * A click on the pick button: a disabled button delivers no click, and
     * the handler calls `startPicking` only when not picking, which then
     * waits for the capture request.
     */
    method PressPick()
      requires Valid()
      modifies this
      ensures Valid()
      ensures pending == old(pending) + (if !old(pickBtnDisabled) && !old(isPicking) then 1 else 0)
      ensures isPicking == old(isPicking) && stream == old(stream) && pickBtnDisabled == old(pickBtnDisabled)
      ensures capturing == old(capturing) && watched == old(watched)
      ensures pickBtnLabel == old(pickBtnLabel) && overlayShown == old(overlayShown)
      ensures videoSource == old(videoSource) && shownHex == old(shownHex)
      ensures canvasWidth == old(canvasWidth) && canvasHeight == old(canvasHeight)
    {
      if !pickBtnDisabled && !isPicking {
        pending := pending + 1;
      }
    }

    /**
     * The rest of `startPicking`, once the capture request settles. A
     * rejection goes to the `catch`, which calls `stopPicking`. A stream is
     * stored in `stream` first; if registering the 'ended' listener throws
     * (a stream without tracks), the `catch` calls `stopPicking`, which does
     * nothing when not picking, so the reference stays set although nothing
     * is captured. Otherwise the session starts and the stream is captured.
     */
    method CaptureSettled(outcome: CaptureOutcome)
      requires Valid() && pending > 0
      requires outcome.Granted? ==> outcome.id !in capturing && outcome.id !in watched
      modifies this
      ensures Valid()
      ensures pending == old(pending) - 1
      ensures outcome.Denied? && !old(isPicking) ==> unchanged(this`isPicking, this`stream, this`capturing)
      ensures outcome.Denied? && old(isPicking) ==>
        !isPicking && stream.None? && capturing == old(capturing) - Held(old(stream))
      ensures outcome.Granted? && outcome.hasVideoTrack ==>
        && isPicking && stream == Some(outcome.id) && videoSource == stream && pickBtnDisabled
        && capturing == old(capturing) + {outcome.id} && watched == old(watched) + {outcome.id}
      ensures outcome.Granted? && !outcome.hasVideoTrack && !old(isPicking) ==>
        !isPicking && stream == Some(outcome.id) && capturing == old(capturing)
      ensures outcome.Granted? && !outcome.hasVideoTrack && old(isPicking) ==>
        !isPicking && stream.None? && capturing == old(capturing)
      ensures !(outcome.Granted? && outcome.hasVideoTrack) ==>
        pickBtnDisabled == old(pickBtnDisabled) && watched == old(watched)
      ensures shownHex == old(shownHex)
      ensures canvasWidth == old(canvasWidth) && canvasHeight == old(canvasHeight)
    {
      pending := pending - 1;
      match outcome
      case Denied =>
        StopPicking();
      case Granted(id, hasVideoTrack) =>
        stream := Some(id);
        if !hasVideoTrack {
          StopPicking();
        } else {
          capturing := capturing + {id};
          watched := watched + {id};
          videoSource := Some(id);
          isPicking := true;
          overlayShown := true;
          pickBtnLabel := "Picking...";
          pickBtnDisabled := true;
        }
    }

    /** `onloadedmetadata`: the canvas takes the size of the captured video. */
    method LoadedMetadata(videoWidth: nat, videoHeight: nat)
      requires Valid() && videoSource.Some?
      modifies this`canvasWidth, this`canvasHeight
      ensures Valid()
      ensures canvasWidth == videoWidth && canvasHeight == videoHeight
    {
      canvasWidth, canvasHeight := videoWidth, videoHeight;
    }

    /**
     * Mouse movement over the overlay: nothing unless picking on a canvas
     * with pixels; then the magnifier crop and the pixel it reports. Moving
     * changes no session state.
     */
    method MouseMove(x: real, y: real) returns (v: Option<ScreenSampling.MagnifierView>)
      requires Valid()
      ensures v == (if isPicking then ScreenSampling.UpdateMagnifier(stream.Some?, canvasWidth, canvasHeight, x, y) else None)
      ensures v.Some? <==> isPicking && canvasWidth >= 1 && canvasHeight >= 1
      ensures v.Some? ==> ScreenSampling.CropInCanvas(v.value.crop, canvasWidth, canvasHeight)
      ensures v.Some? ==> ScreenSampling.PointInCrop(v.value.sample, v.value.crop)
      ensures v.Some? ==> Some(v.value.sample) == ScreenSampling.SamplePoint(canvasWidth, canvasHeight, x, y)
    {
      if !isPicking || canvasWidth == 0 || canvasHeight == 0 {
        return None;
      }
      v := ScreenSampling.UpdateMagnifier(stream.Some?, canvasWidth, canvasHeight, x, y);
    }

    /**
     * A click on the overlay: when picking on a canvas with pixels and the
     * read succeeds, show the colour, stop picking and re-enable the button;
     * otherwise nothing changes.
     */
    method Click(x: real, y: real, read: Canvas.PixelRead)
      requires Valid()
      modifies this
      ensures Valid()
      ensures
        var c := ScreenSampling.GetColorAtPosition(old(canvasWidth), old(canvasHeight), read, x, y);
        if old(isPicking) && c.Some? then
          && !isPicking && !pickBtnDisabled && stream.None?
          && shownHex == Some(ScreenColor.RgbToHex(c.value.r, c.value.g, c.value.b))
          && capturing == old(capturing) - Held(old(stream))
          && pending == old(pending) && watched == old(watched)
          && canvasWidth == old(canvasWidth) && canvasHeight == old(canvasHeight)
        else unchanged(this)
    {
      if !isPicking || canvasWidth == 0 || canvasHeight == 0 {
        return;
      }
      var color := ScreenSampling.GetColorAtPosition(canvasWidth, canvasHeight, read, x, y);
      if color.Some? {
        shownHex := Some(ScreenColor.RgbToHex(color.value.r, color.value.g, color.value.b));
        StopPicking();
        pickBtnDisabled := false;
      }
    }

    /** A key press: Escape while picking stops picking and re-enables the button. */
    method KeyDown(key: string)
      requires Valid()
      modifies this
      ensures Valid()
      ensures if key == "Escape" && old(isPicking) then
          && !isPicking && !pickBtnDisabled && stream.None?
          && capturing == old(capturing) - Held(old(stream))
          && shownHex == old(shownHex) && pending == old(pending) && watched == old(watched)
          && canvasWidth == old(canvasWidth) && canvasHeight == old(canvasHeight)
        else unchanged(this)
    {
      if key == "Escape" && isPicking {
        StopPicking();
        pickBtnDisabled := false;
      }
    }

    /**
     * The browser stops capturing stream s (its "stop sharing" control). If
     * the 'ended' listener is on s, it calls `stopPicking` directly, which
     * leaves the button as it was: disabled, when a session was running.
     */
    method ShareEnded(s: StreamId)
      requires Valid() && s in capturing
      modifies this
      ensures Valid()
      ensures isPicking == (old(isPicking) && s !in watched)
      ensures stream == (if s in watched && old(isPicking) then None else old(stream))
      ensures capturing == old(capturing) - {s} - (if s in watched && old(isPicking) then Held(old(stream)) else {})
      ensures pickBtnDisabled == old(pickBtnDisabled)
      ensures pending == old(pending) && watched == old(watched) && shownHex == old(shownHex)
      ensures canvasWidth == old(canvasWidth) && canvasHeight == old(canvasHeight)
    {
      capturing := capturing - {s};
      if s in watched {
        StopPicking();
      }
    }

    /**
     * `ShareEnded` as the other ways of ending a session do it: after
     * `stopPicking` the button is enabled again, so a new session can be
     * started.
     */
    method ShareEndedFixed(s: StreamId)
      requires Valid() && s in capturing
      modifies this
      ensures Valid()
      ensures isPicking == (old(isPicking) && s !in watched)
      ensures stream == (if s in watched && old(isPicking) then None else old(stream))
      ensures capturing == old(capturing) - {s} - (if s in watched && old(isPicking) then Held(old(stream)) else {})
      ensures pickBtnDisabled == (if s in watched then false else old(pickBtnDisabled))
      ensures pending == old(pending) && watched == old(watched) && shownHex == old(shownHex)
      ensures canvasWidth == old(canvasWidth) && canvasHeight == old(canvasHeight)
    {
      capturing := capturing - {s};
      if s in watched {
        StopPicking();
        pickBtnDisabled := false;
      }
    }
  }

  /**
   * A session ended from the browser's "stop sharing" control leaves the
   * pick button disabled while not picking, so pressing it starts nothing.
   */
  method EndedSharingLocksButton() returns (p: Picker)
    ensures p.Valid() && !p.isPicking && p.pickBtnDisabled && p.pending == 0
  {
    p := new Picker(300, 150);
    p.PressPick();
    p.CaptureSettled(Granted(1, true));
    p.ShareEnded(1);
    p.PressPick();
  }

  /** With the fix, a press after the browser ended the session starts a new capture request. */
  method EndedSharingFixedRestarts() returns (p: Picker)
    ensures p.Valid() && !p.isPicking && !p.pickBtnDisabled && p.pending == 1
  {
    p := new Picker(300, 150);
    p.PressPick();
    p.CaptureSettled(Granted(1, true));
    p.ShareEndedFixed(1);
    p.PressPick();
  }

  /**
   * If the listener registration throws, the page is idle again with the
   * button enabled, but `stream` still refers to the track-less stream;
   * nothing is captured, so nothing leaks.
   */
  method FailedStartKeepsReference() returns (p: Picker)
    ensures p.Valid() && !p.isPicking && !p.pickBtnDisabled && p.pending == 0
    ensures p.stream == Some(1) && p.capturing == {}
  {
    p := new Picker(300, 150);
    p.PressPick();
    p.CaptureSettled(Granted(1, false));
  }

  /**
   * Two presses before the first request settles start two requests (the
   * button is disabled only once a session runs); the second capture
   * overwrites `stream`, and after Escape the first is still captured.
   */
  method DoublePressLeaksCapture() returns (p: Picker)
    ensures p.Valid() && !p.isPicking && p.stream.None? && p.capturing == {1}
  {
    p := new Picker(300, 150);
    p.PressPick();
    p.PressPick();
    p.CaptureSettled(Granted(1, true));
    p.CaptureSettled(Granted(2, true));
    p.KeyDown("Escape");
  }
}
