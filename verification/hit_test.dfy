/**
  The WebXR hit-test dispatcher (`handleXRHitTest`): on its first call with a session it
  requests a hit-test source, once; once the source exists, each call reads the frame's
  hit-test results and fires at most one of two callbacks.

  The module-level variables of the source become an explicit state. The promise chain
  that produces the source is asynchronous and is modelled as a separate event,
  `Resolve`, that can only happen after the request was issued.
*/
module HitTest {
  import opened Common

  /** Identity of an `XRHitTestSource`. */
  type SourceId = nat

  /** A pose's `transform.matrix` (a `Float32Array` of 16 entries). */
  type Matrix = seq<real>

  /** The module-level `hitTestSource` and `hitTestSourceRequested`. */
  datatype HitTestState = HitTestState(requested: bool, source: Option<SourceId>)

  const Initial := HitTestState(false, None)

  /** Which callback, if any, a call fires. */
  datatype Callback = ResultReady(matrix: Matrix) | ResultEmpty | NoCallback

  /** The effect of one call: the new state, whether it issued the request, the callback fired. */
  datatype Dispatch = Dispatch(state: HitTestState, issuedRequest: bool, callback: Callback)

  /**
    One call. `hasSession` and `hasRefSpace` say whether the renderer has a session and a
    reference space; `poses` lists, for each of the frame's hit-test results in order,
    the pose it has in that reference space, or None when it has none.
  */
  function HandleXRHitTest(st: HitTestState, hasSession: bool, hasRefSpace: bool, poses: seq<Option<Matrix>>): (r: Dispatch)
    ensures r.issuedRequest <==> hasSession && !st.requested
    ensures r.state == HitTestState(st.requested || hasSession, st.source)
    ensures st.source.None? ==> r.callback == NoCallback
    ensures r.callback == ResultEmpty <==> st.source.Some? && |poses| == 0
    ensures r.callback.ResultReady? <==> st.source.Some? && |poses| > 0 && hasRefSpace && poses[0].Some?
    ensures r.callback.ResultReady? ==> r.callback.matrix == poses[0].value
  {
    var issued := hasSession && !st.requested;
    var st' := if issued then st.(requested := true) else st;
    var callback :=
      match st.source
      case None => NoCallback
      case Some(_) =>
        if |poses| > 0 then
          if hasRefSpace then
            match poses[0]
            case Some(m) => ResultReady(m)
            case None => NoCallback
          else NoCallback
        else ResultEmpty;
    Dispatch(st', issued, callback)
  }

  /** The request's promise chain has produced a source. */
  function Resolve(st: HitTestState, src: SourceId): HitTestState
    requires st.requested
  {
    st.(source := Some(src))
  }

  /** What can happen to the dispatcher: a call from a frame, or the source arriving. */
  datatype HitTestEvent =
    | Call(hasSession: bool, hasRefSpace: bool, poses: seq<Option<Matrix>>)
    | Resolved(src: SourceId)

  /** A source only arrives after it was requested. */
  predicate SourceAfterRequest(st: HitTestState)
  {
    st.source.Some? ==> st.requested
  }

  /**
    The state after a run of events and the number of requests the calls issued. The one
    request's promise chain sets the source at most once, so a `Resolved` event before the
    request or after a source has arrived cannot occur and is ignored.
  */
  function Replay(st: HitTestState, evs: seq<HitTestEvent>): (r: (HitTestState, nat))
    ensures SourceAfterRequest(st) ==> SourceAfterRequest(r.0)
    ensures st.requested ==> r.0.requested
    ensures st.source.Some? ==> r.0.source == st.source
    decreases |evs|
  {
    if |evs| == 0 then (st, 0)
    else
      match evs[0]
      case Call(hasSession, hasRefSpace, poses) =>
        var d := HandleXRHitTest(st, hasSession, hasRefSpace, poses);
        var rest := Replay(d.state, evs[1..]);
        (rest.0, rest.1 + (if d.issuedRequest then 1 else 0))
      case Resolved(src) =>
        if st.requested && st.source.None? then Replay(Resolve(st, src), evs[1..]) else Replay(st, evs[1..])
  }

  /** The hit-test source is requested at most once, and never again once requested. */
  lemma {:induction false} RequestedAtMostOnce(st: HitTestState, evs: seq<HitTestEvent>)
    ensures Replay(st, evs).1 <= 1
    ensures st.requested ==> Replay(st, evs).1 == 0
    ensures Replay(st, evs).1 == 1 ==> !st.requested && Replay(st, evs).0.requested
    decreases |evs|
  {
    if |evs| > 0 {
      match evs[0]
      case Call(hasSession, hasRefSpace, poses) =>
        var d := HandleXRHitTest(st, hasSession, hasRefSpace, poses);
        RequestedAtMostOnce(d.state, evs[1..]);
      case Resolved(src) =>
        if st.requested && st.source.None? {
          RequestedAtMostOnce(Resolve(st, src), evs[1..]);
        } else {
          RequestedAtMostOnce(st, evs[1..]);
        }
    }
  }

  /** Calls without a session leave the request to a later call: the first call with a session issues it. */
  lemma NoSessionDefersRequest(n: nat, poses: seq<Option<Matrix>>)
    ensures
      var evs := seq(n, _ => Call(false, false, poses)) + [Call(true, false, poses)];
      Replay(Initial, evs) == (HitTestState(true, None), 1)
  {
    var calls := seq(n, _ => Call(false, false, poses));
    NoSessionCallsChangeNothing(Initial, calls, [Call(true, false, poses)]);
    var evs := [Call(true, false, poses)];
    assert evs[1..] == [];
  }

  /** A call without a session changes nothing, so any number of them can be skipped. */
  lemma {:induction false} NoSessionCallsChangeNothing(st: HitTestState, calls: seq<HitTestEvent>, tail: seq<HitTestEvent>)
    requires forall i :: 0 <= i < |calls| ==> calls[i].Call? && !calls[i].hasSession
    ensures Replay(st, calls + tail) == Replay(st, tail)
    decreases |calls|
  {
    if |calls| > 0 {
      assert (calls + tail)[0] == calls[0];
      assert (calls + tail)[1..] == calls[1..] + tail;
      NoSessionCallsChangeNothing(st, calls[1..], tail);
    } else {
      assert calls + tail == tail;
    }
  }
}
