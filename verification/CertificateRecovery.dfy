/** When a certificate rotation that failed half-way can still be completed by retries. */
module CertificateRecovery {
  import opened Sequences
  import opened Wrappers
  import opened CertificateRotation
  import opened CertificateLaws

  // ---------- a secret left cleared ----------

  /** This thread is not about to refill the secret: no reconcile call, and no attempt past its read. */
  predicate Idle(thread: Thread) {
    !thread.Reconciling? && (thread.Rolling? ==> thread.attempt.ReadSecret?)
  }

  /** The secret has nil data and nobody under way is about to refill it. */
  ghost predicate LeftCleared(s: State) {
    && s.shared.secret == Present(Nil)
    && forall t :: 0 <= t < |s.threads| ==> Idle(s.threads[t])
  }

  lemma IdleStep(m: Shared, t: nat, thread: Thread, o: Outcome)
    requires CanStep(m, thread) && m.secret == Present(Nil) && Idle(thread)
    ensures var e := ThreadStep(m, t, thread, o);
            && e.shared.secret == m.secret && e.shared.restarts == m.restarts
            && Idle(e.thread) && (e.spawned.Some? ==> Idle(e.spawned.value))
  {
  }

  ghost predicate NoReconcile(actions: seq<Action>) {
    forall i :: 0 <= i < |actions| ==> !actions[i].Reconcile?
  }

  /** Once an attempt fails between clearing and rewriting, no number of retries refills the
      secret or restarts a pod; only a reconcile call can. */
  lemma {:induction false} ClearedStaysCleared(s: State, actions: seq<Action>)
    requires LeftCleared(s) && Run(s, actions).Some? && NoReconcile(actions)
    ensures LeftCleared(Run(s, actions).value)
    ensures Run(s, actions).value.shared.restarts == s.shared.restarts
  {
    if actions != [] {
      ClearedStaysCleared(s, Front(actions));
      var before, a := Run(s, Front(actions)).value, Last(actions);
      if a.Step? {
        IdleStep(before.shared, a.thread, before.threads[a.thread], a.outcome);
      }
    }
  }

  /** Once the retry budget is used up, nobody is left to restart a pod. */
  lemma {:induction false} GivenUpStays(s: State, actions: seq<Action>)
    requires Safe(s) && s.shared.gaveUp > 0 && Run(s, actions).Some?
    ensures var end := Run(s, actions).value;
            Safe(end) && end.shared.gaveUp > 0 && end.shared.restarts == s.shared.restarts
  {
    if actions != [] {
      GivenUpStays(s, Front(actions));
      var before, a := Run(s, Front(actions)).value, Last(actions);
      SafeStep(before, a);
      if a.Step? {
        CarriersCount(before.threads, a.thread, a.thread);
        StepPassesToken(before.shared, a.thread, before.threads[a.thread], a.outcome);
        IdleRestarts(before.shared, a.thread, before.threads[a.thread], a.outcome);
      }
    }
  }

  lemma IdleRestarts(m: Shared, t: nat, thread: Thread, o: Outcome)
    requires CanStep(m, thread) && !thread.Rolling?
    ensures var m' := ThreadStep(m, t, thread, o).shared; m'.restarts == m.restarts && m'.gaveUp == m.gaveUp
  {
  }

  // ---------- the way to a restart ----------

  /** Steps the duty to renew is away from a restart. */
  function ThreadDistance(thread: Thread): nat {
    match thread
    case Starting(ReadExpiry) => 13
    case Scheduling(ReadExpiry) => 13
    case Starting(Send(_)) => 12
    case Scheduling(Send(_)) => 12
    case Timer(_) => 10
    case Rolling(_, _, ReadSecret) => 9
    case Rolling(_, _, ClearSecret) => 8
    case Rolling(_, _, Regenerate(g)) => 3 + GenerationDistance(g)
    case _ => 0
  }

  function GenerationDistance(g: Generation): nat {
    match g
    case Lock => 4
    case Check => 3
    case Generate(_) => 2
    case Write(_, _) => 1
  }

  /** Thread t has the duty to renew, unless it is in the channel. */
  predicate Holds(s: State, t: nat) {
    s.shared.channel == [] ==> t < |s.threads| && Carries(s.threads[t]) == 1
  }

  function Distance(s: State, t: nat): nat
    requires s.started ==> Holds(s, t)
  {
    if !s.started then 14
    else if s.shared.channel != [] then 11
    else ThreadDistance(s.threads[t])
  }

  /** Steps to the release of the lock with the secret refilled. */
  function LockDistance(s: State): nat
    requires Safe(s)
  {
    if s.shared.lock == None then (if s.shared.secret == Present(Nil) then 4 else 0)
    else
      match s.threads[s.shared.lock.value]
      case Reconciling(g) => GenerationDistance(g)
      case _ => 0
  }

  ghost predicate Recoverable(s: State, t: nat) {
    && Safe(s) && WatcherAlive(s) && s.shared.gaveUp == 0 && !LeftCleared(s)
    && (s.started ==> Holds(s, t))
  }

  /** Apply(s, a) is nearer to a restart than s. */
  ghost predicate Nearer(s: State, t: nat, a: Action, t': nat)
    requires Recoverable(s, t)
  {
    && Enabled(s, a) && !a.Reconcile?
    && Recoverable(Apply(s, a), t') && Apply(s, a).shared.restarts == s.shared.restarts
    && (|| Distance(Apply(s, a), t') < Distance(s, t)
        || (Distance(Apply(s, a), t') == Distance(s, t) && LockDistance(Apply(s, a)) < LockDistance(s)))
  }

  /** What a successful step of the thread with the duty to renew does, unless it is a read that
      finds nil data. */
  lemma CarrierStep(m: Shared, t: nat, thread: Thread)
    requires CanStep(m, thread) && ThreadOk(m, thread) && m.channel == [] && Carries(thread) == 1
    requires thread.Rolling? ==> !thread.attempt.DeletePods?
    requires Idle(thread) ==> m.secret != Present(Nil)
    ensures var e := ThreadStep(m, t, thread, Done);
            && e.spawned == None && e.shared.restarts == m.restarts && e.shared.gaveUp == m.gaveUp
            && (e.shared.channel == [] ==> Carries(e.thread) == 1 && ThreadDistance(e.thread) < ThreadDistance(thread))
            && (e.shared.channel != [] ==> ThreadDistance(thread) == 12)
            && (e.shared.secret != Present(Nil) || !Idle(e.thread))
  {
  }

  lemma CarrierAdvances(s: State, t: nat)
    requires Recoverable(s, t) && s.started && s.shared.channel == [] && CanStep(s.shared, s.threads[t])
    requires s.threads[t].Rolling? ==> !s.threads[t].attempt.DeletePods?
    requires Idle(s.threads[t]) ==> s.shared.secret != Present(Nil)
    ensures Nearer(s, t, Step(t, Done), t)
  {
    SafeStep(s, Step(t, Done));
    CarrierStep(s.shared, t, s.threads[t]);
    var s' := Apply(s, Step(t, Done));
    assert s'.threads[t] == ThreadStep(s.shared, t, s.threads[t], Done).thread;
  }

  /** A deadline in the channel is received, the secret not being an empty one. */
  lemma WatcherAdvances(s: State, t: nat)
    requires Recoverable(s, t) && s.started && s.shared.channel != [] && s.shared.secret != Present(Nil)
    ensures Nearer(s, t, Step(0, Done), |s.threads|)
  {
    CarriersCount(s.threads, 0, 0);
    SafeStep(s, Step(0, Done));
    assert s.threads[0] == Watching;
  }

  /** What a successful step of a reconcile call does once it can move. */
  lemma ReconcileStep(m: Shared, t: nat, thread: Thread)
    requires thread.Reconciling? && CanStep(m, thread) && ThreadOk(m, thread)
    ensures var e := ThreadStep(m, t, thread, Done);
            && e.spawned == None && e.shared.channel == m.channel
            && e.shared.restarts == m.restarts && e.shared.gaveUp == m.gaveUp
            && (e.shared.lock == None ==> e.shared.secret.Full())
            && (e.shared.lock != None ==>
                  && e.shared.lock == Some(t) && e.thread.Reconciling?
                  && GenerationDistance(e.thread.generation) < GenerationDistance(thread.generation))
  {
  }

  lemma ReconcileAdvances(s: State, t: nat, u: nat)
    requires Recoverable(s, t) && s.started && u < |s.threads| && s.threads[u].Reconciling?
    requires s.shared.lock == Some(u) || (s.shared.lock == None && s.shared.secret == Present(Nil))
    requires s.shared.channel == [] ==> !Idle(s.threads[t]) || s.shared.secret == Present(Nil)
    ensures Nearer(s, t, Step(u, Done), t)
  {
    SafeStep(s, Step(u, Done));
    ReconcileStep(s.shared, u, s.threads[u]);
    var s' := Apply(s, Step(u, Done));
    assert s'.threads[u] == ThreadStep(s.shared, u, s.threads[u], Done).thread;
    assert s.shared.channel == [] ==> t != u && s'.threads[t] == s.threads[t];
  }

  /** Somebody other than the holder of the duty is about to refill an empty secret, or holds
      the lock: it is a reconcile call. */
  lemma OtherIsReconcile(s: State, t: nat, u: nat)
    requires Recoverable(s, t) && s.started && u < |s.threads| && !Idle(s.threads[u])
    requires s.shared.channel == [] ==> u != t
    ensures s.threads[u].Reconciling?
  {
    CarriersCount(s.threads, u, u);
    if s.shared.channel == [] {
      CarriersCount(s.threads, t, u);
    }
  }

  /** While an empty secret is to be refilled first, the reconcile call that can move does. */
  lemma RefillAdvances(s: State, t: nat) returns (a: Action)
    requires Recoverable(s, t) && s.started && s.shared.secret == Present(Nil)
    requires s.shared.channel == [] ==> Idle(s.threads[t])
    ensures Nearer(s, t, a, t)
  {
    var u :| 0 <= u < |s.threads| && !Idle(s.threads[u]);
    var mover := if s.shared.lock.Some? then s.shared.lock.value else u;
    OtherIsReconcile(s, t, mover);
    ReconcileAdvances(s, t, mover);
    a := Step(mover, Done);
  }

  /** From a state that is not left cleared, some step leads nearer to a restart. */
  lemma Advances(s: State, t: nat) returns (a: Action, t': nat)
    requires Recoverable(s, t)
    requires s.started && s.shared.channel == [] && s.threads[t].Rolling? ==> !s.threads[t].attempt.DeletePods?
    ensures Nearer(s, t, a, t')
  {
    t' := t;
    if !s.started {
      a, t' := NewMaintainer, 0;
      SafeStep(s, a);
    } else if s.shared.secret == Present(Nil) && (s.shared.channel == [] ==> Idle(s.threads[t])) {
      a := RefillAdvances(s, t);
    } else if s.shared.channel != [] {
      WatcherAdvances(s, t);
      a, t' := Step(0, Done), |s.threads|;
    } else if CanStep(s.shared, s.threads[t]) {
      CarrierAdvances(s, t);
      a := Step(t, Done);
    } else {
      OtherIsReconcile(s, t, s.shared.lock.value);
      ReconcileAdvances(s, t, s.shared.lock.value);
      a := Step(s.shared.lock.value, Done);
    }
  }

  /** A continuation without a new reconcile call in which pods are restarted. */
  ghost predicate Restarts(s: State, more: seq<Action>) {
    NoReconcile(more) && Run(s, more).Some? && Run(s, more).value.shared.restarts > s.shared.restarts
  }

  lemma Prepend(s: State, a: Action, more: seq<Action>)
    requires Enabled(s, a) && !a.Reconcile? && Apply(s, a).shared.restarts == s.shared.restarts
    requires Restarts(Apply(s, a), more)
    ensures Restarts(s, [a] + more)
  {
    assert Front([a]) == [];
    RunConcat(s, [a], more);
  }

  lemma DeletingRestarts(s: State, t: nat)
    requires t < |s.threads| && s.threads[t].Rolling? && s.threads[t].attempt.DeletePods?
    ensures Restarts(s, [Step(t, Done)])
  {
    assert Front([Step(t, Done)]) == [];
  }

  lemma {:induction false} Recovers(s: State, t: nat) returns (more: seq<Action>)
    requires Recoverable(s, t)
    ensures Restarts(s, more)
    decreases Distance(s, t), LockDistance(s)
  {
    if s.started && s.shared.channel == [] && s.threads[t].Rolling? && s.threads[t].attempt.DeletePods? {
      more := [Step(t, Done)];
      DeletingRestarts(s, t);
    } else {
      var a, t' := Advances(s, t);
      more := Recovers(Apply(s, a), t');
      Prepend(s, a, more);
      more := [a] + more;
    }
  }

  /** In every reachable state, and with every pattern of calls in progress: without a new
      reconcile call pods can be restarted again exactly when the retry budget is not used up
      and the secret has not been left with nil data and nobody under way to refill it. */
  lemma RecoveryExactly(secret: Secret, nextCert: nat, actions: seq<Action>)
    requires Run(Init(secret, nextCert), actions).Some?
    ensures var s := Run(Init(secret, nextCert), actions).value;
            (exists more :: Restarts(s, more)) <==> s.shared.gaveUp == 0 && !LeftCleared(s)
  {
    var s := Run(Init(secret, nextCert), actions).value;
    AlwaysSafe(secret, nextCert, actions);
    WatcherStaysAlive(secret, nextCert, actions);
    forall more | Restarts(s, more)
      ensures s.shared.gaveUp == 0 && !LeftCleared(s)
    {
      if s.shared.gaveUp > 0 {
        GivenUpStays(s, more);
      } else if LeftCleared(s) {
        ClearedStaysCleared(s, more);
      }
    }
    if s.shared.gaveUp == 0 && !LeftCleared(s) {
      var t := 0;
      if Carriers(s.threads) > 0 {
        t := CarrierExists(s.threads);
      }
      var more := Recovers(s, t);
    }
  }

  /** In particular an attempt about to read the secret, with nobody else at work on it, can
      complete exactly when it will not find nil data. */
  lemma RetryCompletesExactly(secret: Secret, nextCert: nat, actions: seq<Action>, t: nat)
    requires Run(Init(secret, nextCert), actions).Some?
    requires var s := Run(Init(secret, nextCert), actions).value;
             && t < |s.threads| && s.threads[t].Rolling? && s.threads[t].attempt.ReadSecret?
             && forall u :: 0 <= u < |s.threads| ==> !s.threads[u].Reconciling?
    ensures var s := Run(Init(secret, nextCert), actions).value;
            (exists more :: Restarts(s, more)) <==> s.shared.secret != Present(Nil)
  {
    var s := Run(Init(secret, nextCert), actions).value;
    AlwaysSafe(secret, nextCert, actions);
    RecoveryExactly(secret, nextCert, actions);
    CarriersCount(s.threads, t, t);
    forall u | 0 <= u < |s.threads|
      ensures Idle(s.threads[u])
    {
      CarriersCount(s.threads, t, u);
    }
  }

  // ---------- one lost reply ----------

  /** The first renewal, in the second thread, clears the secret, but the reply is lost. */
  const LOSE_CLEAR: seq<Action> := [Step(1, Done), Step(1, Done), Step(1, LostReply)]

  lemma ClearLost(m: Shared, d: Deadline)
    requires m.secret.Full()
    ensures Run(State(true, [Watching, Timer(d)], m), LOSE_CLEAR) ==
            Some(State(true, [Watching, Rolling(RETRIES - 1, 0, ReadSecret)],
                       m.(clock := m.clock + 3, secret := Present(Nil), cleared := m.cleared + 1)))
  {
    var start := State(true, [Watching, Timer(d)], m);
    var s1 := State(true, [Watching, Rolling(RETRIES, 0, ReadSecret)], m.(clock := m.clock + 1));
    RunNext(start, LOSE_CLEAR, 0, start, s1);
    var s2 := State(true, [Watching, Rolling(RETRIES, m.clock + 1, ClearSecret)], m.(clock := m.clock + 2));
    RunNext(start, LOSE_CLEAR, 1, s1, s2);
    RunNext(start, LOSE_CLEAR, 2, s2,
            State(true, [Watching, Rolling(RETRIES - 1, 0, ReadSecret)],
                  m.(clock := m.clock + 3, secret := Present(Nil), cleared := m.cleared + 1)));
    assert LOSE_CLEAR[..3] == LOSE_CLEAR;
  }

  /** The state that retries cannot leave is reached from a full pair by one lost reply to the
      clear, with all four retries to go: every continuation without a reconcile call leaves
      the secret empty and the pods alone. */
  lemma RetriesDoNotRecover(secret: Secret, nextCert: nat, more: seq<Action>)
    requires secret.Full() && NoReconcile(more)
    ensures var s := Run(Init(secret, nextCert), SET_TIMER + LOSE_CLEAR);
            && s.Some? && s.value.threads == [Watching, Rolling(RETRIES - 1, 0, ReadSecret)]
            && s.value.shared.gaveUp == 0
            && (Run(s.value, more).Some? ==>
                  && Run(s.value, more).value.shared.secret == Present(Nil)
                  && Run(s.value, more).value.shared.restarts == 0)
  {
    TimerSet(secret, nextCert);
    RunConcat(Init(secret, nextCert), SET_TIMER, LOSE_CLEAR);
    ClearLost(Init(secret, nextCert).shared.(clock := 5), Expiry(secret, Done));
    var s := Run(Init(secret, nextCert), SET_TIMER + LOSE_CLEAR).value;
    if Run(s, more).Some? {
      ClearedStaysCleared(s, more);
    }
  }
}
