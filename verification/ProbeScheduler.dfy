/** The backend status hook: chained timers, one probe at a time, and clean-up on unmount.

    The steps of the hook are functions on its state; the class at the end takes the same steps on
    its own fields. */
module ProbeScheduler {
  import opened Options

  type Millis = int

  type TimerId = nat

  datatype Status = Checking | Online | Offline

  datatype Health = Health(status: Status, lastSuccessAt: Millis, lastAttemptAt: Millis, nextProbeAt: Millis)

  /** The variables of one run of the effect, shared by its callbacks. */
  datatype Effect = Effect(pollIntervalMs: Millis, cancelled: bool, probeRunning: bool, probeAgain: bool)

  /** A request in flight: the run of the effect it belongs to and when it was sent. */
  datatype Request = Request(effect: nat, startedAt: Millis)

  datatype Timer = Timer(effect: nat, due: Millis)

  /** `live` is the run of the effect that is not cleaned up, `pending` the timers the browser holds,
      `timerRef` the hook's own reference, which may name a timer that has fired. */
  datatype State = State(
    effects: seq<Effect>,
    live: Option<nat>,
    requests: seq<Request>,
    pending: map<TimerId, Timer>,
    nextTimer: TimerId,
    timerRef: Option<TimerId>,
    health: Health)

  datatype Event =
    | RunEffect(pollIntervalMs: Millis, initialDelayMs: Millis)
    | CleanUp
    | TimerFires(timer: TimerId)
    | Answered(request: nat, ok: bool)
    | Woken(hidden: bool)

  // ------------------------------------------------------------------
  // The steps
  // ------------------------------------------------------------------

  function Without(timers: map<TimerId, Timer>, timer: Option<TimerId>): map<TimerId, Timer> {
    match timer
    case None => timers
    case Some(t) => timers - {t}
  }

  /** Replaces the timer referred to by a new one. */
  function ScheduleProbe(s: State, effect: nat, now: Millis, delayMs: Millis): State {
    s.(pending := Without(s.pending, s.timerRef)[s.nextTimer := Timer(effect, now + delayMs)],
       timerRef := Some(s.nextTimer),
       nextTimer := s.nextTimer + 1)
  }

  function Probe(s: State, e: nat, now: Millis): State
    requires e < |s.effects|
  {
    if s.effects[e].probeRunning then
      s.(effects := s.effects[e := s.effects[e].(probeAgain := true)])
    else
      s.(effects := s.effects[e := s.effects[e].(probeRunning := true)],
         requests := s.requests + [Request(e, now)])
  }

  function HealthAfter(health: Health, ok: bool, now: Millis, pollIntervalMs: Millis): Health {
    if ok then Health(Online, now, now, now + pollIntervalMs)
    else Health(Offline, health.lastSuccessAt, now, now + pollIntervalMs)
  }

  function Max(a: Millis, b: Millis): Millis {
    if a < b then b else a
  }

  /** The rest of a probe once its request is answered. */
  function Resume(s: State, request: Request, now: Millis, ok: bool): State
    requires request.effect < |s.effects|
  {
    var e := request.effect;
    var effect := s.effects[e];
    if effect.cancelled then
      s.(effects := s.effects[e := effect.(probeRunning := false)])
    else
      var shown := s.(health := HealthAfter(s.health, ok, now, effect.pollIntervalMs));
      var freed := shown.(effects := s.effects[e := effect.(probeRunning := false, probeAgain := false)]);
      ScheduleProbe(freed, e, now,
        if effect.probeAgain then 0 else Max(0, effect.pollIntervalMs - (now - request.startedAt)))
  }

  function RemoveAt(requests: seq<Request>, k: nat): seq<Request>
    requires k < |requests|
  {
    requests[..k] + requests[k + 1..]
  }

  predicate InRange(s: State) {
    && (s.live.Some? ==> s.live.value < |s.effects|)
    && (forall k | 0 <= k < |s.requests| :: s.requests[k].effect < |s.effects|)
    && (forall t <- s.pending :: s.pending[t].effect < |s.effects|)
  }

  /** React cleans an effect up before running it again; listeners exist while the effect is live. */
  predicate Enabled(s: State, event: Event, now: Millis) {
    match event
    case RunEffect(_, _) => s.live.None?
    case CleanUp => s.live.Some?
    case TimerFires(t) => t in s.pending && s.pending[t].due <= now
    case Answered(k, _) => k < |s.requests|
    case Woken(_) => s.live.Some?
  }

  function Next(s: State, event: Event, now: Millis): State
    requires InRange(s) && Enabled(s, event, now)
  {
    match event
    case RunEffect(poll, initialDelay) =>
      var e := |s.effects|;
      var started := s.(effects := s.effects + [Effect(poll, false, false, false)], live := Some(e));
      ScheduleProbe(started, e, now, initialDelay)
    case CleanUp =>
      var e := s.live.value;
      s.(effects := s.effects[e := s.effects[e].(cancelled := true)], live := None,
         pending := Without(s.pending, s.timerRef), timerRef := None)
    case TimerFires(t) =>
      Probe(s.(pending := s.pending - {t}), s.pending[t].effect, now)
    case Answered(k, ok) =>
      Resume(s.(requests := RemoveAt(s.requests, k)), s.requests[k], now, ok)
    case Woken(hidden) =>
      if hidden then s else ScheduleProbe(s, s.live.value, now, 0)
  }

  function Initial(now: Millis, initialDelayMs: Millis): State {
    State([], None, [], map[], 0, None, Health(Checking, 0, 0, now + initialDelayMs))
  }

  datatype Moment = Moment(event: Event, now: Millis)

  ghost predicate IsRun(states: seq<State>, moments: seq<Moment>) {
    && |states| == |moments| + 1
    && (exists now, delay :: states[0] == Initial(now, delay))
    && forall i | 0 <= i < |moments| ::
         && InRange(states[i]) && Enabled(states[i], moments[i].event, moments[i].now)
         && states[i + 1] == Next(states[i], moments[i].event, moments[i].now)
  }

  // ------------------------------------------------------------------
  // The invariant
  // ------------------------------------------------------------------

  predicate HasRequest(requests: seq<Request>, e: nat) {
    exists k :: 0 <= k < |requests| && requests[k].effect == e
  }

  /** No effect has two requests in flight, and `probeRunning` says which have one. */
  ghost predicate OneRequestEach(s: State) {
    && (forall j, k | 0 <= j < k < |s.requests| :: s.requests[j].effect != s.requests[k].effect)
    && (forall k | 0 <= k < |s.requests| ::
          s.requests[k].effect < |s.effects| && s.effects[s.requests[k].effect].probeRunning)
    && (forall e | 0 <= e < |s.effects| && s.effects[e].probeRunning ::
          HasRequest(s.requests, e))
  }

  /** Only the live effect is not cancelled; only it has a timer, and only one. */
  ghost predicate OneTimer(s: State) {
    && (forall e | 0 <= e < |s.effects| :: s.effects[e].cancelled <==> s.live != Some(e))
    && (s.live.Some? ==> s.live.value < |s.effects|)
    && (forall t <- s.pending :: s.timerRef == Some(t) && s.live == Some(s.pending[t].effect) && t < s.nextTimer)
    && (s.live.None? ==> s.timerRef.None?)
  }

  /** While the effect is live a timer is pending or its probe runs. */
  predicate Armed(s: State) {
    s.live.Some? && s.live.value < |s.effects| ==>
      s.pending != map[] || s.effects[s.live.value].probeRunning
  }

  predicate HealthOrdered(s: State) {
    s.health.status == Online ==> s.health.lastSuccessAt == s.health.lastAttemptAt
  }

  ghost predicate Inv(s: State) {
    OneRequestEach(s) && OneTimer(s) && Armed(s) && HealthOrdered(s)
  }

  lemma InvInRange(s: State)
    requires Inv(s)
    ensures InRange(s)
  {
  }

  lemma InvInitial(now: Millis, delay: Millis)
    ensures Inv(Initial(now, delay))
  {
  }

  lemma InvRunEffect(s: State, poll: Millis, delay: Millis, now: Millis)
    requires Inv(s) && InRange(s) && s.live.None?
    ensures Inv(Next(s, RunEffect(poll, delay), now))
  {
    var n := Next(s, RunEffect(poll, delay), now);
    assert s.pending == map[];
    assert n.nextTimer - 1 in n.pending;
    forall e | 0 <= e < |n.effects| && n.effects[e].probeRunning
      ensures HasRequest(n.requests, e)
    {
      assert e < |s.effects| && s.effects[e].probeRunning;
    }
  }

  lemma InvCleanUp(s: State, now: Millis)
    requires Inv(s) && InRange(s) && s.live.Some?
    ensures Inv(Next(s, CleanUp, now))
  {
    var n := Next(s, CleanUp, now);
    forall e | 0 <= e < |n.effects| && n.effects[e].probeRunning
      ensures HasRequest(n.requests, e)
    {
      assert s.effects[e].probeRunning;
    }
  }

  lemma InvTimerFires(s: State, t: TimerId, now: Millis)
    requires Inv(s) && InRange(s) && t in s.pending
    ensures Inv(Probe(s.(pending := s.pending - {t}), s.pending[t].effect, now))
  {
    var fired := s.(pending := s.pending - {t});
    var e := s.pending[t].effect;
    var n := Probe(fired, e, now);
    if !s.effects[e].probeRunning {
      assert n.requests[|s.requests|].effect == e;
      forall f | 0 <= f < |n.effects| && n.effects[f].probeRunning
        ensures HasRequest(n.requests, f)
      {
        if f != e {
          var k :| 0 <= k < |s.requests| && s.requests[k].effect == f;
          assert n.requests[k].effect == f;
        }
      }
    } else {
      assert forall f | 0 <= f < |n.effects| :: n.effects[f].probeRunning == s.effects[f].probeRunning;
    }
  }

  lemma InvAnswered(s: State, k: nat, ok: bool, now: Millis)
    requires Inv(s) && InRange(s) && k < |s.requests|
    ensures Inv(Next(s, Answered(k, ok), now))
  {
    var n := Next(s, Answered(k, ok), now);
    var e := s.requests[k].effect;
    AnsweredRequests(s, k, n);
    if s.live == Some(e) {
      assert n.nextTimer - 1 in n.pending;
    }
  }

  lemma AnsweredRequests(s: State, k: nat, n: State)
    requires OneRequestEach(s) && k < |s.requests| && |n.effects| == |s.effects|
    requires n.requests == RemoveAt(s.requests, k)
    requires !n.effects[s.requests[k].effect].probeRunning
    requires forall e | 0 <= e < |s.effects| && e != s.requests[k].effect :: n.effects[e] == s.effects[e]
    ensures OneRequestEach(n)
  {
    hide HasRequest;
    forall e | 0 <= e < |n.effects| && n.effects[e].probeRunning
      ensures HasRequest(n.requests, e)
    {
      RequestRemains(s.requests, k, e);
    }
  }

  lemma RequestRemains(requests: seq<Request>, k: nat, e: nat)
    requires HasRequest(requests, e) && k < |requests| && requests[k].effect != e
    ensures HasRequest(RemoveAt(requests, k), e)
  {
    var j :| 0 <= j < |requests| && requests[j].effect == e;
    assert RemoveAt(requests, k)[if j < k then j else j - 1].effect == e;
  }

  lemma InvWoken(s: State, hidden: bool, now: Millis)
    requires Inv(s) && InRange(s) && s.live.Some?
    ensures Inv(Next(s, Woken(hidden), now))
  {
    if !hidden {
      var n := Next(s, Woken(hidden), now);
      assert n.nextTimer - 1 in n.pending;
    }
  }

  lemma InvNext(s: State, event: Event, now: Millis)
    requires Inv(s) && InRange(s) && Enabled(s, event, now)
    ensures Inv(Next(s, event, now))
  {
    hide Inv;
    match event
    case RunEffect(poll, delay) => InvRunEffect(s, poll, delay, now);
    case CleanUp => InvCleanUp(s, now);
    case TimerFires(t) => InvTimerFires(s, t, now);
    case Answered(k, ok) => InvAnswered(s, k, ok, now);
    case Woken(hidden) => InvWoken(s, hidden, now);
  }

  lemma {:induction false} RunKeepsInv(states: seq<State>, moments: seq<Moment>, i: nat)
    requires IsRun(states, moments) && i < |states|
    ensures Inv(states[i])
  {
    hide Inv, InRange, Enabled, Next;
    if i == 0 {
      var now, delay :| states[0] == Initial(now, delay);
      InvInitial(now, delay);
    } else {
      RunKeepsInv(states, moments, i - 1);
      InvNext(states[i - 1], moments[i - 1].event, moments[i - 1].now);
    }
  }

  // ------------------------------------------------------------------
  // What every run keeps
  // ------------------------------------------------------------------

  /** One request at most for each run of the effect: one in all until the effect is run again. */
  lemma OneInFlight(states: seq<State>, moments: seq<Moment>, i: nat)
    requires IsRun(states, moments) && i < |states|
    ensures forall j, k | 0 <= j < k < |states[i].requests| ::
              states[i].requests[j].effect != states[i].requests[k].effect
    ensures |states[i].effects| <= 1 ==> |states[i].requests| <= 1
  {
    hide IsRun;
    RunKeepsInv(states, moments, i);
    var requests := states[i].requests;
    assert |requests| >= 2 ==> requests[0].effect != requests[1].effect;
  }

  /** A timer fires while a request of a cleaned-up run of the effect is in flight. */
  predicate FiresOverOldRequest(s: State, event: Event) {
    event.TimerFires? && exists k :: 0 <= k < |s.requests| && s.live != Some(s.requests[k].effect)
  }

  /** From at most one request, a step leads to a second exactly if it is such a timer. */
  lemma StepOverlapsIff(s: State, event: Event, now: Millis)
    requires Inv(s) && InRange(s) && Enabled(s, event, now) && |s.requests| <= 1
    ensures |Next(s, event, now).requests| <= 1 <==> !FiresOverOldRequest(s, event)
  {
    if event.TimerFires? {
      var e := s.pending[event.timer].effect;
      assert s.live == Some(e);
      if s.effects[e].probeRunning {
        assert HasRequest(s.requests, e);
      } else if |s.requests| == 1 {
        assert s.effects[s.requests[0].effect].probeRunning;
      }
    }
  }

  /** At every moment of a run there is at most one request in flight exactly when no timer fires while a
      request of a cleaned-up run of the effect is. */
  lemma NeverOverlapsIff(states: seq<State>, moments: seq<Moment>)
    requires IsRun(states, moments)
    ensures (forall i | 0 <= i < |states| :: |states[i].requests| <= 1)
       <==> (forall i | 0 <= i < |moments| :: !FiresOverOldRequest(states[i], moments[i].event))
  {
    if forall i | 0 <= i < |states| :: |states[i].requests| <= 1 {
      forall i | 0 <= i < |moments| ensures !FiresOverOldRequest(states[i], moments[i].event) {
        RunKeepsInv(states, moments, i);
        assert |states[i].requests| <= 1 && |states[i + 1].requests| <= 1;
        StepOverlapsIff(states[i], moments[i].event, moments[i].now);
      }
    }
    if forall i | 0 <= i < |moments| :: !FiresOverOldRequest(states[i], moments[i].event) {
      forall i | 0 <= i < |states| ensures |states[i].requests| <= 1 {
        NoOverlapUpTo(states, moments, i);
      }
    }
  }

  lemma {:induction false} NoOverlapUpTo(states: seq<State>, moments: seq<Moment>, i: nat)
    requires IsRun(states, moments) && i < |states|
    requires forall j | 0 <= j < |moments| :: !FiresOverOldRequest(states[j], moments[j].event)
    ensures |states[i].requests| <= 1
  {
    if i > 0 {
      NoOverlapUpTo(states, moments, i - 1);
      RunKeepsInv(states, moments, i - 1);
      hide Inv;
      StepOverlapsIff(states[i - 1], moments[i - 1].event, moments[i - 1].now);
    }
  }

  /** While mounted a timer is pending or the probe runs; never more than one timer, and none after unmount. */
  lemma ArmedWhileMounted(states: seq<State>, moments: seq<Moment>, i: nat)
    requires IsRun(states, moments) && i < |states|
    ensures
      var s := states[i];
      && (s.live.Some? ==>
            && s.live.value < |s.effects|
            && (s.pending != map[] || (s.effects[s.live.value].probeRunning && HasRequest(s.requests, s.live.value))))
      && (forall t, u | t in s.pending && u in s.pending :: t == u)
      && (s.live.None? ==> s.pending == map[])
  {
    hide IsRun;
    RunKeepsInv(states, moments, i);
  }

  /** After unmount nothing but mounting again changes the health shown or arms a timer. */
  lemma SilentAfterUnmount(states: seq<State>, moments: seq<Moment>, i: nat)
    requires IsRun(states, moments) && i < |moments|
    requires states[i].live.None? && !moments[i].event.RunEffect?
    ensures states[i + 1].health == states[i].health
    ensures states[i + 1].live.None? && states[i + 1].pending == map[]
  {
    hide Inv;
    RunKeepsInv(states, moments, i);
    UnmountedNext(states[i], moments[i].event, moments[i].now);
  }

  lemma UnmountedNext(s: State, event: Event, now: Millis)
    requires Inv(s) && InRange(s) && Enabled(s, event, now) && s.live.None? && !event.RunEffect?
    ensures
      var n := Next(s, event, now);
      n.health == s.health && n.live.None? && n.pending == map[]
  {
    assert s.pending == map[];
  }

  /** The health changes only when a request of the mounted effect is answered; a late answer to a
      cleaned-up effect changes neither the health nor the timers. */
  lemma OnlyLiveAnswersShow(s: State, event: Event, now: Millis)
    requires Inv(s) && InRange(s) && Enabled(s, event, now)
    ensures
      var n := Next(s, event, now);
      var shows := event.Answered? && s.live == Some(s.requests[event.request].effect);
      && (!shows ==> n.health == s.health)
      && (shows ==> n.health.lastAttemptAt == now && (n.health.status == Online <==> event.ok))
      && (shows && !event.ok ==> n.health.lastSuccessAt == s.health.lastSuccessAt)
      && (event.Answered? && !shows ==> n.pending == s.pending && n.timerRef == s.timerRef)
  {
  }

  // ------------------------------------------------------------------
  // When the next probe is due
  // ------------------------------------------------------------------

  /** After an answer one timer is armed: at once if a probe was asked for meanwhile, else one interval
      after the answered request was sent. The time shown is later by as long as the probe took. */
  lemma NextProbeDue(s: State, k: nat, ok: bool, now: Millis)
    requires Inv(s) && InRange(s) && k < |s.requests| && s.live == Some(s.requests[k].effect)
    requires s.requests[k].startedAt <= now && s.effects[s.requests[k].effect].pollIntervalMs >= 0
    ensures
      var n := Next(s, Answered(k, ok), now);
      var effect := s.effects[s.requests[k].effect];
      var due := if effect.probeAgain then now else Max(now, s.requests[k].startedAt + effect.pollIntervalMs);
      && n.pending == map[s.nextTimer := Timer(s.requests[k].effect, due)]
      && due <= n.health.nextProbeAt
      && (!effect.probeAgain ==>
            (due == n.health.nextProbeAt <==> effect.pollIntervalMs == 0 || now == s.requests[k].startedAt))
  {
  }

  /** A wake-up during a probe leads to a probe at once exactly if its timer fires before the answer; else
      the answer replaces that timer by one a full interval after the request. */
  lemma WakeUpDuringProbe(s: State, k: nat, ok: bool, wokenAt: Millis, firesFirst: bool, now: Millis,
                          woken: State, before: State)
    requires Inv(s) && InRange(s) && k < |s.requests| && s.live == Some(s.requests[k].effect)
    requires !s.effects[s.requests[k].effect].probeAgain
    requires s.requests[k].startedAt <= wokenAt <= now
    requires now < s.requests[k].startedAt + s.effects[s.requests[k].effect].pollIntervalMs
    requires woken == Next(s, Woken(false), wokenAt)
    requires firesFirst ==>
               InRange(woken) && Enabled(woken, TimerFires(s.nextTimer), now)
               && before == Next(woken, TimerFires(s.nextTimer), now)
    requires !firesFirst ==> before == woken
    ensures InRange(before) && before.requests == s.requests
    ensures
      var request := s.requests[k];
      var intervalEnd := request.startedAt + s.effects[request.effect].pollIntervalMs;
      Next(before, Answered(k, ok), now).pending
      == map[before.nextTimer := Timer(request.effect, if firesFirst then now else intervalEnd)]
  {
    InvWoken(s, false, wokenAt);
    assert woken.pending == map[s.nextTimer := Timer(s.live.value, wokenAt)];
    if firesFirst {
      InvTimerFires(woken, s.nextTimer, now);
    }
    InvInRange(before);
    NextProbeDue(before, k, ok, now);
  }

  // ------------------------------------------------------------------
  // A change of options while a request is in flight
  // ------------------------------------------------------------------

  /** The hook mounted, and its first probe sent. */
  const Mounted := State([Effect(1000, false, false, false)], Some(0), [], map[0 := Timer(0, 0)], 1, Some(0),
                         Health(Checking, 0, 0, 0))
  const Probing := Mounted.(effects := [Effect(1000, false, true, false)], requests := [Request(0, 0)], pending := map[])

  ghost predicate StepsTo(s: State, event: Event, now: Millis, n: State) {
    InRange(s) && Enabled(s, event, now) && n == Next(s, event, now)
  }

  lemma FirstProbe()
    ensures StepsTo(Initial(0, 0), RunEffect(1000, 0), 0, Mounted)
    ensures StepsTo(Mounted, TimerFires(0), 0, Probing)
  {
    assert map[0 := Timer(0, 0)] - {0} == map[];
  }

  lemma SecondProbe() returns (s3: State, s4: State, s5: State)
    ensures StepsTo(Probing, CleanUp, 1, s3) && StepsTo(s3, RunEffect(2000, 0), 1, s4)
    ensures StepsTo(s4, TimerFires(1), 1, s5) && |s5.requests| == 2
  {
    s3 := Next(Probing, CleanUp, 1);
    s4 := Next(s3, RunEffect(2000, 0), 1);
    assert s4.pending == map[1 := Timer(1, 1)];
    s5 := Next(s4, TimerFires(1), 1);
  }

  /** Running the effect again, as new options do, can put a second request in flight. */
  lemma RerunOverlaps() returns (states: seq<State>, moments: seq<Moment>)
    ensures IsRun(states, moments)
    ensures |states[|moments|].requests| == 2
  {
    hide Next, Enabled, InRange, Initial;
    FirstProbe();
    var s3, s4, s5 := SecondProbe();
    moments := [Moment(RunEffect(1000, 0), 0), Moment(TimerFires(0), 0), Moment(CleanUp, 1),
                Moment(RunEffect(2000, 0), 1), Moment(TimerFires(1), 1)];
    states := [Initial(0, 0), Mounted, Probing, s3, s4, s5];
  }

  // ------------------------------------------------------------------
  // The hook itself
  // ------------------------------------------------------------------

  class Hook {
    var effects: seq<Effect>
    var live: Option<nat>
    var requests: seq<Request>
    var pending: map<TimerId, Timer>
    var nextTimer: TimerId
    var timerRef: Option<TimerId>
    var health: Health

    ghost function View(): State
      reads this
    {
      State(effects, live, requests, pending, nextTimer, timerRef, health)
    }

    constructor (now: Millis, initialDelayMs: Millis)
      ensures View() == Initial(now, initialDelayMs)
    {
      effects, live, requests := [], None, [];
      pending, nextTimer, timerRef := map[], 0, None;
      health := Health(Checking, 0, 0, now + initialDelayMs);
    }

    method ClearTimeout(timer: TimerId)
      modifies this`pending
      ensures pending == old(pending) - {timer}
    {
      pending := pending - {timer};
    }

    method SetTimeout(effect: nat, due: Millis) returns (timer: TimerId)
      modifies this`pending, this`nextTimer
      ensures timer == old(nextTimer) && nextTimer == timer + 1
      ensures pending == old(pending)[timer := Timer(effect, due)]
    {
      timer := nextTimer;
      pending, nextTimer := pending[timer := Timer(effect, due)], nextTimer + 1;
    }

    method ArmProbe(effect: nat, now: Millis, delayMs: Millis)
      modifies this`pending, this`nextTimer, this`timerRef
      ensures View() == ScheduleProbe(old(View()), effect, now, delayMs)
    {
      if timerRef.Some? {
        ClearTimeout(timerRef.value);
      }
      var timer := SetTimeout(effect, now + delayMs);
      timerRef := Some(timer);
    }

    /** Runs the effect: arms the first probe and starts listening. */
    method Mount(pollIntervalMs: Millis, initialDelayMs: Millis, now: Millis)
      requires Inv(View()) && live.None?
      modifies this
      ensures Inv(View()) && View() == Next(old(View()), RunEffect(pollIntervalMs, initialDelayMs), now)
    {
      hide OneRequestEach, OneTimer, Armed, HealthOrdered, HasRequest;
      InvInRange(View());
      InvRunEffect(View(), pollIntervalMs, initialDelayMs, now);
      effects := effects + [Effect(pollIntervalMs, false, false, false)];
      live := Some(|effects| - 1);
      ArmProbe(|effects| - 1, now, initialDelayMs);
    }

    method Unmount(now: Millis)
      requires Inv(View()) && live.Some?
      modifies this
      ensures Inv(View()) && View() == Next(old(View()), CleanUp, now)
    {
      hide OneRequestEach, OneTimer, Armed, HealthOrdered, HasRequest;
      InvInRange(View());
      InvCleanUp(View(), now);
      effects := effects[live.value := effects[live.value].(cancelled := true)];
      live := None;
      if timerRef.Some? {
        ClearTimeout(timerRef.value);
        timerRef := None;
      }
    }

    /** A timer fires: sends a request, or asks the running probe for another. */
    method FireTimer(timer: TimerId, now: Millis)
      requires Inv(View()) && timer in pending && pending[timer].due <= now
      modifies this
      ensures Inv(View()) && View() == Next(old(View()), TimerFires(timer), now)
    {
      hide OneRequestEach, OneTimer, Armed, HealthOrdered, HasRequest;
      InvInRange(View());
      InvTimerFires(View(), timer, now);
      var e := pending[timer].effect;
      pending := pending - {timer};
      if effects[e].probeRunning {
        effects := effects[e := effects[e].(probeAgain := true)];
      } else {
        effects := effects[e := effects[e].(probeRunning := true)];
        requests := requests + [Request(e, now)];
      }
    }

    /** A request is answered or fails, and its probe goes on to its end. */
    method Answer(k: nat, ok: bool, now: Millis)
      requires Inv(View()) && k < |requests|
      modifies this
      ensures Inv(View()) && View() == Next(old(View()), Answered(k, ok), now)
    {
      hide OneRequestEach, OneTimer, Armed, HealthOrdered, HasRequest;
      InvInRange(View());
      InvAnswered(View(), k, ok, now);
      var e, startedAt := requests[k].effect, requests[k].startedAt;
      requests := requests[..k] + requests[k + 1..];
      if !effects[e].cancelled {
        if ok {
          health := Health(Online, now, now, now + effects[e].pollIntervalMs);
        } else {
          health := Health(Offline, health.lastSuccessAt, now, now + effects[e].pollIntervalMs);
        }
      }
      effects := effects[e := effects[e].(probeRunning := false)];
      if !effects[e].cancelled {
        if effects[e].probeAgain {
          effects := effects[e := effects[e].(probeAgain := false)];
          assert effects == old(effects)[e := old(effects)[e].(probeRunning := false, probeAgain := false)];
          ArmProbe(e, now, 0);
        } else {
          assert effects == old(effects)[e := old(effects)[e].(probeRunning := false, probeAgain := false)];
          var elapsed := now - startedAt;
          ArmProbe(e, now, Max(0, effects[e].pollIntervalMs - elapsed));
        }
      }
    }

    /** The window gets focus, the browser goes online, or the page's visibility changes. */
    method ProbeWhenVisible(hidden: bool, now: Millis)
      requires Inv(View()) && live.Some?
      modifies this
      ensures Inv(View()) && View() == Next(old(View()), Woken(hidden), now)
    {
      hide OneRequestEach, OneTimer, Armed, HealthOrdered, HasRequest;
      InvInRange(View());
      InvWoken(View(), hidden, now);
      if hidden {
        return;
      }
      ArmProbe(live.value, now, 0);
    }
  }
}
