/**
 * The shutdown flag of the provider process and the service loop it guards.
 * The state is the flag and the number of times the service was cancelled
 * (`lws_cancel_service`, which wakes a blocked service call). Callbacks run
 * inside a service call: the interrupt handler, the connection callbacks and
 * the filesystem operations.
 */
module Shutdown {
  import opened Primitives

  datatype Control = Control(shutdownRequested: bool, cancels: nat)

  /** The state before the loop starts: no shutdown requested, nothing cancelled. */
  const INITIAL := Control(false, 0)

  /** A callback delivered during one service call. */
  datatype Callback =
    | Interrupt(signal: int32)   // SIGINT, handled by on_shutdown_requested
    | Connected                  // on_connected: only logs
    | Disconnected               // on_disconnected
    | Operation                  // a filesystem request; does not touch the flag

  /** on_shutdown_requested: set the flag and cancel the service, on every call. */
  function SignalStep(s: Control): (t: Control)
    ensures t.shutdownRequested
    ensures t.cancels == s.cancels + 1
  {
    Control(true, s.cancels + 1)
  }

  /** on_disconnected: a disconnect nobody asked for requests shutdown and cancels; after a request it does nothing. */
  function DisconnectStep(s: Control): (t: Control)
    ensures t.shutdownRequested
    ensures s.shutdownRequested ==> t == s
    ensures !s.shutdownRequested ==> t.cancels == s.cancels + 1
  {
    if s.shutdownRequested then s else Control(true, s.cancels + 1)
  }

  /** The effect of one callback. The flag never goes back, and setting it always cancels once. */
  function Step(s: Control, cb: Callback): (t: Control)
    ensures s.shutdownRequested ==> t.shutdownRequested
    ensures t.cancels >= s.cancels
    ensures !s.shutdownRequested && t.shutdownRequested ==> t.cancels == s.cancels + 1
    ensures t.shutdownRequested == (s.shutdownRequested || cb.Interrupt? || cb.Disconnected?)
  {
    match cb
    case Interrupt(_) => SignalStep(s)
    case Disconnected => DisconnectStep(s)
    case Connected => s
    case Operation => s
  }

  /** The state after a sequence of callbacks, in order. */
  function Replay(s: Control, cbs: seq<Callback>): Control
    decreases |cbs|
  {
    if cbs == [] then s else Replay(Step(s, cbs[0]), cbs[1..])
  }

  /** The number of interrupts in a sequence of callbacks. */
  function Interrupts(cbs: seq<Callback>): (n: nat)
    ensures n <= |cbs|
  {
    if cbs == [] then 0 else (if cbs[0].Interrupt? then 1 else 0) + Interrupts(cbs[1..])
  }

  /** The first callback that requests shutdown, an interrupt or a disconnect, if any. */
  function FirstRequest(cbs: seq<Callback>): (r: Option<Callback>)
    ensures r.Some? ==> r.value in cbs && (r.value.Interrupt? || r.value.Disconnected?)
    ensures r.None? <==> forall k :: 0 <= k < |cbs| ==> !cbs[k].Interrupt? && !cbs[k].Disconnected?
  {
    if cbs == [] then None
    else if cbs[0].Interrupt? || cbs[0].Disconnected? then Some(cbs[0])
    else FirstRequest(cbs[1..])
  }

  /** A second shutdown request leaves the flag set as the first did; it only cancels the service once more. */
  lemma SignalIdempotent(s: Control)
    ensures SignalStep(SignalStep(s)).shutdownRequested == SignalStep(s).shutdownRequested
    ensures SignalStep(SignalStep(s)) == SignalStep(s).(cancels := s.cancels + 2)
  {
  }

  /** A second disconnect changes nothing at all. */
  lemma DisconnectIdempotent(s: Control)
    ensures DisconnectStep(DisconnectStep(s)) == DisconnectStep(s)
  {
  }

  lemma {:induction false} ReplayAppend(s: Control, cbs: seq<Callback>, cb: Callback)
    ensures Replay(s, cbs + [cb]) == Step(Replay(s, cbs), cb)
    decreases |cbs|
  {
    if cbs != [] {
      assert (cbs + [cb])[1..] == cbs[1..] + [cb];
      ReplayAppend(Step(s, cbs[0]), cbs[1..], cb);
    }
  }

  /** After any callbacks, shutdown is requested exactly when it was before or one of them requested it. */
  lemma {:induction false} ReplayFlag(s: Control, cbs: seq<Callback>)
    ensures Replay(s, cbs).shutdownRequested <==> s.shutdownRequested || FirstRequest(cbs).Some?
    decreases |cbs|
  {
    if cbs != [] {
      ReplayFlag(Step(s, cbs[0]), cbs[1..]);
    }
  }

  /**
   * Every interrupt cancels the service; a disconnect cancels it only when it
   * is the first request, and then exactly once.
   */
  lemma {:induction false} ReplayCancels(s: Control, cbs: seq<Callback>)
    ensures Replay(s, cbs).cancels == s.cancels + Interrupts(cbs)
      + (if !s.shutdownRequested && FirstRequest(cbs) == Some(Disconnected) then 1 else 0)
    decreases |cbs|
  {
    if cbs != [] {
      ReplayCancels(Step(s, cbs[0]), cbs[1..]);
    }
  }

  /** The flag, once set, stays set through any callbacks. */
  lemma FlagStaysSet(s: Control, cbs: seq<Callback>)
    requires s.shutdownRequested
    ensures Replay(s, cbs).shutdownRequested
  {
    ReplayFlag(s, cbs);
  }

  lemma {:induction false} NoInterruptsFirstRequest(cbs: seq<Callback>)
    requires Interrupts(cbs) == 0 && Disconnected in cbs
    ensures FirstRequest(cbs) == Some(Disconnected)
    decreases |cbs|
  {
    if cbs[0] != Disconnected {
      assert Disconnected in cbs[1..];
      NoInterruptsFirstRequest(cbs[1..]);
    }
  }

  lemma {:induction false} FirstInterruptCounted(cbs: seq<Callback>)
    requires FirstRequest(cbs).Some? && FirstRequest(cbs).value.Interrupt?
    ensures Interrupts(cbs) >= 1
    decreases |cbs|
  {
    if !cbs[0].Interrupt? {
      FirstInterruptCounted(cbs[1..]);
    }
  }

  /**
   * Without interrupts, disconnects request shutdown exactly once: the flag is
   * set and the service cancelled once, however many disconnects arrive.
   */
  lemma UnrequestedDisconnectCancelsOnce(s: Control, cbs: seq<Callback>)
    requires !s.shutdownRequested && Interrupts(cbs) == 0 && Disconnected in cbs
    ensures Replay(s, cbs) == Control(true, s.cancels + 1)
  {
    NoInterruptsFirstRequest(cbs);
    ReplayFlag(s, cbs);
    ReplayCancels(s, cbs);
  }

  /** From the initial state, a requested shutdown has always cancelled the service at least once. */
  lemma RequestedShutdownWasCancelled(cbs: seq<Callback>)
    ensures Replay(INITIAL, cbs).shutdownRequested ==> Replay(INITIAL, cbs).cancels >= 1
  {
    ReplayFlag(INITIAL, cbs);
    ReplayCancels(INITIAL, cbs);
    if FirstRequest(cbs).Some? && FirstRequest(cbs).value.Interrupt? {
      FirstInterruptCounted(cbs);
    }
  }

  /** The state after a sequence of service calls, each delivering its batch of callbacks. */
  function Feed(s: Control, batches: seq<seq<Callback>>): Control
    decreases |batches|
  {
    if batches == [] then s else Feed(Replay(s, batches[0]), batches[1..])
  }

  datatype LoopOutcome = LoopOutcome(final: Control, iterations: nat)

  /**
   * The service loop over the service calls available: a call happens only
   * while no shutdown is requested.
   */
  function ServiceRun(s: Control, batches: seq<seq<Callback>>): LoopOutcome
    decreases |batches|
  {
    if s.shutdownRequested || batches == [] then LoopOutcome(s, 0)
    else
      var rest := ServiceRun(Replay(s, batches[0]), batches[1..]);
      LoopOutcome(rest.final, rest.iterations + 1)
  }

  /**
   * The loop makes service calls while the flag is clear and stops after the
   * first call that leaves it set (or when no call is left).
   */
  lemma {:induction false} ServiceRunStopsAtRequest(s: Control, batches: seq<seq<Callback>>)
    ensures var r := ServiceRun(s, batches);
      && r.iterations <= |batches|
      && r.final == Feed(s, batches[..r.iterations])
      && (r.final.shutdownRequested || r.iterations == |batches|)
      && (forall k :: 0 <= k < r.iterations ==> !Feed(s, batches[..k]).shutdownRequested)
    decreases |batches|
  {
    if !s.shutdownRequested && batches != [] {
      var s' := Replay(s, batches[0]);
      ServiceRunStopsAtRequest(s', batches[1..]);
      var r := ServiceRun(s, batches);
      var n := r.iterations;
      assert batches[..n][1..] == batches[1..][..n - 1];
      forall k | 0 <= k < n ensures !Feed(s, batches[..k]).shutdownRequested {
        if k > 0 {
          assert batches[..k][1..] == batches[1..][..k - 1];
        }
      }
    }
  }

  /** The provider process: the global flag and the cancel side effect, updated in place by the callbacks. */
  class Process {
    var isShutdownRequested: bool
    var cancels: nat

    function State(): Control
      reads this
    {
      Control(isShutdownRequested, cancels)
    }

    constructor ()
      ensures State() == INITIAL
    {
      isShutdownRequested := false;
      cancels := 0;
    }

    /** The service call `lws_cancel_service`, counted. */
    method CancelService()
      modifies this
      ensures isShutdownRequested == old(isShutdownRequested) && cancels == old(cancels) + 1
    {
      cancels := cancels + 1;
    }

    method OnShutdownRequested(signal: int32)
      modifies this
      ensures State() == SignalStep(old(State()))
    {
      isShutdownRequested := true;
      CancelService();
    }

    method OnDisconnected()
      modifies this
      ensures State() == DisconnectStep(old(State()))
    {
      if !isShutdownRequested {
        isShutdownRequested := true;
        CancelService();
      }
    }

    /** One callback, dispatched to its handler. */
    method Dispatch(cb: Callback)
      modifies this
      ensures State() == Step(old(State()), cb)
    {
      match cb
      case Interrupt(signal) => OnShutdownRequested(signal);
      case Disconnected => OnDisconnected();
      case Connected =>
      case Operation =>
    }

    /** One service call (`lws_service`), delivering the callbacks that are ready. */
    method Service(ready: seq<Callback>)
      modifies this
      ensures State() == Replay(old(State()), ready)
    {
      for i := 0 to |ready|
        invariant State() == Replay(old(State()), ready[..i])
      {
        ReplayAppend(old(State()), ready[..i], ready[i]);
        assert ready[..i + 1] == ready[..i] + [ready[i]];
        Dispatch(ready[i]);
      }
      assert ready[..|ready|] == ready;
    }

    /**
     * `while (!is_shutdown_requested) lws_service(context, 0);` over the
     * service calls in `batches`; `iterations` is the number of calls made.
     */
    method RunServiceLoop(batches: seq<seq<Callback>>) returns (iterations: nat)
      modifies this
      ensures LoopOutcome(State(), iterations) == ServiceRun(old(State()), batches)
    {
      iterations := 0;
      while !isShutdownRequested && iterations < |batches|
        invariant iterations <= |batches|
        invariant var rest := ServiceRun(State(), batches[iterations..]);
          ServiceRun(old(State()), batches) == LoopOutcome(rest.final, rest.iterations + iterations)
        decreases |batches| - iterations
      {
        assert batches[iterations..][1..] == batches[iterations + 1..];
        Service(batches[iterations]);
        iterations := iterations + 1;
      }
      assert ServiceRun(State(), batches[iterations..]) == LoopOutcome(State(), 0);
    }
  }

  /**
   * The process from the installation of the interrupt handler on: a fresh
   * flag, then the service loop. `final` is the state when the loop exits.
   */
  method Run(batches: seq<seq<Callback>>) returns (final: Control, iterations: nat)
    ensures LoopOutcome(final, iterations) == ServiceRun(INITIAL, batches)
    ensures final.shutdownRequested || iterations == |batches|
    ensures final.shutdownRequested ==> final.cancels >= 1
  {
    var process := new Process();
    iterations := process.RunServiceLoop(batches);
    final := process.State();
    ServiceRunStopsAtRequest(INITIAL, batches);
    FeedRequestedWasCancelled(batches[..iterations]);
  }

  /** After any service calls from the initial state, a requested shutdown has cancelled the service. */
  lemma {:induction false} FeedRequestedWasCancelled(batches: seq<seq<Callback>>)
    ensures Feed(INITIAL, batches).shutdownRequested ==> Feed(INITIAL, batches).cancels >= 1
  {
    FeedFlatten(INITIAL, batches);
    RequestedShutdownWasCancelled(Flatten(batches));
  }

  /** All callbacks of a sequence of service calls, in delivery order. */
  function Flatten(batches: seq<seq<Callback>>): seq<Callback>
    decreases |batches|
  {
    if batches == [] then [] else batches[0] + Flatten(batches[1..])
  }

  lemma {:induction false} ReplayConcat(s: Control, a: seq<Callback>, b: seq<Callback>)
    ensures Replay(s, a + b) == Replay(Replay(s, a), b)
    decreases |a|
  {
    if a == [] {
      assert a + b == b;
    } else {
      assert (a + b)[1..] == a[1..] + b;
      ReplayConcat(Step(s, a[0]), a[1..], b);
    }
  }

  /** Service calls one after another amount to delivering all their callbacks in order. */
  lemma {:induction false} FeedFlatten(s: Control, batches: seq<seq<Callback>>)
    ensures Feed(s, batches) == Replay(s, Flatten(batches))
    decreases |batches|
  {
    if batches != [] {
      ReplayConcat(s, batches[0], Flatten(batches[1..]));
      FeedFlatten(Replay(s, batches[0]), batches[1..]);
    }
  }
}
