/** The screenshot task: after a chain of connection steps it loops, taking a
    screenshot, decoding it and sending it to the GUI, until a capture fails or
    the GUI channel is closed. Each iteration's device, decoder and channel
    outcome is given as a `Shot`. */
module Capture {
  import opened Messages

  /** One iteration of the screenshot loop. */
  datatype Shot =
    | CaptureFailed                        // `take_screenshot` returned an error
    | DecodeFailed                         // the PNG did not decode
    | Decoded(image: Image, sendOk: bool)  // decoded; whether the GUI channel took it

  /** How the screenshot task ended. */
  datatype Exit =
    | SetupFailed     // a connection step before the loop failed
    | CaptureError    // a capture failed
    | ReceiverClosed  // sending to the GUI failed
    | Pending         // no observed iteration ended the loop: it is still running

  /** An iteration after which the loop does not go on. */
  predicate Terminal(s: Shot)
  {
    s.CaptureFailed? || (s.Decoded? && !s.sendOk)
  }

  /** The index of the first iteration that ends the loop, or |shots| if none does. */
  function FirstTerminal(shots: seq<Shot>): (k: nat)
    ensures k <= |shots|
    ensures forall i :: 0 <= i < k ==> !Terminal(shots[i])
    ensures k < |shots| ==> Terminal(shots[k])
  {
    if shots == [] then 0
    else if Terminal(shots[0]) then 0
    else 1 + FirstTerminal(shots[1..])
  }

  /** The images of the decoded iterations, in order. */
  function DecodedImages(shots: seq<Shot>): seq<Image>
  {
    if shots == [] then []
    else
      var rest := DecodedImages(shots[..|shots| - 1]);
      match shots[|shots| - 1]
      case Decoded(image, _) => rest + [image]
      case _ => rest
  }

  /** The frames the GUI receives: those decoded before the loop ends. */
  function Delivered(shots: seq<Shot>): seq<Image>
  {
    DecodedImages(shots[..FirstTerminal(shots)])
  }

  /** How the loop ends after the observed iterations. */
  function ExitOf(shots: seq<Shot>): Exit
  {
    var k := FirstTerminal(shots);
    if k == |shots| then Pending
    else if shots[k].CaptureFailed? then CaptureError
    else ReceiverClosed
  }

  /** The `loop` that drives capture; `captures` counts the screenshot requests made. */
  method CaptureLoop(shots: seq<Shot>) returns (sent: seq<Image>, exit: Exit, captures: nat)
    ensures sent == Delivered(shots)
    ensures exit == ExitOf(shots)
    ensures captures == if FirstTerminal(shots) < |shots| then FirstTerminal(shots) + 1 else |shots|
  {
    sent, exit := [], Pending;
    var i := 0;
    while i < |shots|
      invariant i <= FirstTerminal(shots)
      invariant sent == DecodedImages(shots[..i])
      invariant exit == Pending
    {
      assert shots[..i + 1][..i] == shots[..i];
      var shot := shots[i];
      if shot.CaptureFailed? {
        exit := CaptureError;
        break;
      }
      if shot.Decoded? {
        if !shot.sendOk {
          exit := ReceiverClosed;
          break;
        }
        sent := sent + [shot.image];
      }
      i := i + 1;
    }
    captures := if i < |shots| then i + 1 else i;
  }

  /** The whole spawned task: no frame at all when the connection steps fail. */
  method ScreenshotTask(connected: bool, shots: seq<Shot>) returns (sent: seq<Image>, exit: Exit)
    ensures !connected ==> sent == [] && exit == SetupFailed
    ensures connected ==> sent == Delivered(shots) && exit == ExitOf(shots)
  {
    if !connected {
      return [], SetupFailed;
    }
    var captures;
    sent, exit, captures := CaptureLoop(shots);
  }

  /** Decoded frames come out in their original order, each decoded iteration
      contributes its image once, and decode failures contribute nothing. */
  lemma {:induction false} DecodedImagesOrigins(shots: seq<Shot>) returns (origin: seq<nat>)
    ensures |origin| == |DecodedImages(shots)|
    ensures forall k :: 0 <= k < |origin| ==>
              origin[k] < |shots| && shots[origin[k]].Decoded? &&
              shots[origin[k]].image == DecodedImages(shots)[k]
    ensures forall k, k' :: 0 <= k < k' < |origin| ==> origin[k] < origin[k']
    ensures forall j :: 0 <= j < |shots| ==> (shots[j].Decoded? <==> j in origin)
  {
    if shots == [] {
      origin := [];
    } else {
      var n := |shots| - 1;
      var prefix := shots[..n];
      var o := DecodedImagesOrigins(prefix);
      assert forall j :: 0 <= j < n ==> prefix[j] == shots[j];
      if shots[n].Decoded? {
        assert DecodedImages(shots) == DecodedImages(prefix) + [shots[n].image];
        origin := o + [n];
      } else {
        assert DecodedImages(shots) == DecodedImages(prefix);
        origin := o;
      }
    }
  }

  /** The loop ends at the first terminal iteration, whatever follows it. */
  lemma {:induction false} FirstTerminalAt(before: seq<Shot>, stop: Shot, after: seq<Shot>)
    requires forall i :: 0 <= i < |before| ==> !Terminal(before[i])
    requires Terminal(stop)
    ensures FirstTerminal(before + [stop] + after) == |before|
    ensures Delivered(before + [stop] + after) == DecodedImages(before)
    ensures ExitOf(before + [stop] + after) == if stop.CaptureFailed? then CaptureError else ReceiverClosed
  {
    var shots := before + [stop] + after;
    if before != [] {
      assert shots[1..] == before[1..] + [stop] + after;
      FirstTerminalAt(before[1..], stop, after);
    }
    assert shots[..|before|] == before;
  }

  /** Both loop specifications agree on prefixes. */
  lemma {:induction false} DecodedImagesPrefix(shots: seq<Shot>, n: nat)
    requires n <= |shots|
    ensures DecodedImages(shots[..n]) <= DecodedImages(shots)
  {
    if n < |shots| {
      var m := |shots| - 1;
      DecodedImagesPrefix(shots[..m], n);
      assert shots[..m][..n] == shots[..n];
    } else {
      assert shots[..n] == shots;
    }
  }

  lemma {:induction false} FirstTerminalPrefix(shots: seq<Shot>, n: nat)
    requires n <= |shots|
    ensures FirstTerminal(shots[..n]) == if n < FirstTerminal(shots) then n else FirstTerminal(shots)
  {
    if n > 0 && !Terminal(shots[0]) {
      assert shots[..n][1..] == shots[1..][..n - 1];
      FirstTerminalPrefix(shots[1..], n - 1);
    }
  }

  /** Aborting the task after `n` iterations only cuts the frame stream short:
      what the GUI has received by then is a prefix of what it would have received. */
  lemma AbortDeliversPrefix(shots: seq<Shot>, n: nat)
    requires n <= |shots|
    ensures Delivered(shots[..n]) <= Delivered(shots)
  {
    var k := FirstTerminal(shots);
    FirstTerminalPrefix(shots, n);
    var k' := FirstTerminal(shots[..n]);
    assert shots[..n][..k'] == shots[..k][..k'];
    DecodedImagesPrefix(shots[..k], k');
  }
}
