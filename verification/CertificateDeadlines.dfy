/** Which certificate the renewal deadlines on their way stand for. */
module CertificateDeadlines {
  import opened Sequences
  import opened Wrappers
  import opened CertificateRotation
  import opened CertificateLaws

  // ---------- no deadline is stale ----------

  /** A certificate without its key is not there. */
  predicate Whole(secret: Secret) {
    secret.Present? && secret.data.Entries? && secret.data.cert.Some? ==> secret.data.key.Some?
  }

  /** A deadline taken from a certificate is that of the one installed; the fallback delay,
      which was taken from none, passes. */
  predicate NotStale(secret: Secret, d: Deadline) {
    d.At? ==> secret.Full() && secret.data.cert == Some(d.cert)
  }

  predicate ThreadNotStale(secret: Secret, thread: Thread) {
    match thread
    case Starting(Send(d)) => NotStale(secret, d)
    case Timer(d) => NotStale(secret, d)
    case Scheduling(Send(d)) => NotStale(secret, d)
    case _ => true
  }

  ghost predicate NoneStale(s: State) {
    && (forall i :: 0 <= i < |s.shared.channel| ==> NotStale(s.shared.secret, s.shared.channel[i]))
    && (forall t :: 0 <= t < |s.threads| ==> ThreadNotStale(s.shared.secret, s.threads[t]))
  }

  lemma OwnNotStale(m: Shared, t: nat, thread: Thread, o: Outcome)
    requires CanStep(m, thread) && ThreadOk(m, thread) && Whole(m.secret)
    requires ThreadNotStale(m.secret, thread)
    requires thread.Rolling? ==> m.channel == []
    requires forall i :: 0 <= i < |m.channel| ==> NotStale(m.secret, m.channel[i])
    ensures var e := ThreadStep(m, t, thread, o);
            && Whole(e.shared.secret)
            && ThreadNotStale(e.shared.secret, e.thread)
            && (e.spawned.Some? ==> ThreadNotStale(e.shared.secret, e.spawned.value))
            && (forall i :: 0 <= i < |e.shared.channel| ==> NotStale(e.shared.secret, e.shared.channel[i]))
  {
    StepDisturbs(m, t, thread, o);
  }

  lemma OtherNotStale(m: Shared, thread: Thread, m': Shared, other: Thread)
    requires Disturbs(m, thread, m') && ThreadNotStale(m.secret, other)
    requires thread.Rolling? ==> Carries(other) == 0
    ensures ThreadNotStale(m'.secret, other)
  {
  }

  lemma NoneStaleStep(s: State, a: Action)
    requires Safe(s) && Whole(s.shared.secret) && NoneStale(s) && Enabled(s, a)
    ensures Whole(Apply(s, a).shared.secret) && NoneStale(Apply(s, a))
  {
    if a.Step? {
      var t, thread := a.thread, s.threads[a.thread];
      var e := ThreadStep(s.shared, t, thread, a.outcome);
      CarriersCount(s.threads, t, t);
      OwnNotStale(s.shared, t, thread, a.outcome);
      StepDisturbs(s.shared, t, thread, a.outcome);
      forall u | 0 <= u < |s.threads| && u != t
        ensures ThreadNotStale(e.shared.secret, s.threads[u])
      {
        CarriersCount(s.threads, t, u);
        OtherNotStale(s.shared, thread, e.shared, s.threads[u]);
      }
    }
  }

  lemma {:induction false} NoneStaleInRun(secret: Secret, nextCert: nat, actions: seq<Action>)
    requires Whole(secret) && Run(Init(secret, nextCert), actions).Some?
    ensures var s := Run(Init(secret, nextCert), actions).value; Whole(s.shared.secret) && NoneStale(s)
  {
    if actions != [] {
      NoneStaleInRun(secret, nextCert, Front(actions));
      AlwaysSafe(secret, nextCert, Front(actions));
      NoneStaleStep(Run(Init(secret, nextCert), Front(actions)).value, Last(actions));
    }
  }

  // ---------- deadlines are current ----------

  /** Whenever a full pair is installed, the deadline is the one of its certificate. */
  predicate Current(secret: Secret, d: Deadline) {
    secret.Full() ==> d == At(secret.data.cert.value)
  }

  predicate ThreadCurrent(secret: Secret, thread: Thread) {
    match thread
    case Starting(Send(d)) => Current(secret, d)
    case Timer(d) => Current(secret, d)
    case Scheduling(Send(d)) => Current(secret, d)
    case _ => true
  }

  ghost predicate AllCurrent(s: State) {
    && (forall i :: 0 <= i < |s.shared.channel| ==> Current(s.shared.secret, s.shared.channel[i]))
    && (forall t :: 0 <= t < |s.threads| ==> ThreadCurrent(s.shared.secret, s.threads[t]))
  }

  predicate ReadsExpiry(thread: Thread) {
    thread == Starting(ReadExpiry) || thread == Scheduling(ReadExpiry)
  }

  predicate ReadSucceeds(s: State, a: Action)
    requires Enabled(s, a)
  {
    a.Step? && ReadsExpiry(s.threads[a.thread]) ==> a.outcome == Done
  }

  /** No read of the expiry date fails. */
  ghost predicate ExpiryReadsOk(start: State, actions: seq<Action>) {
    actions != [] ==>
      && ExpiryReadsOk(start, Front(actions))
      && (Run(start, actions).Some? ==> ReadSucceeds(Run(start, Front(actions)).value, Last(actions)))
  }

  /** A full pair is installed, and the deadline was taken from a certificate. */
  predicate Due(secret: Secret, d: Deadline) {
    secret.Full() && d.At?
  }

  /** The thread's deadline was taken from a certificate, and a full pair is installed while the
      duty to renew is with anybody but a rolling update. */
  predicate ThreadExpects(secret: Secret, thread: Thread) {
    match thread
    case Starting(Send(d)) => Due(secret, d)
    case Timer(d) => Due(secret, d)
    case Scheduling(Send(d)) => Due(secret, d)
    case _ => ReadsExpiry(thread) ==> secret.Full()
  }

  ghost predicate Expecting(s: State) {
    && (forall i :: 0 <= i < |s.shared.channel| ==> Due(s.shared.secret, s.shared.channel[i]))
    && (forall t :: 0 <= t < |s.threads| ==> ThreadExpects(s.shared.secret, s.threads[t]))
    && (!s.started ==> s.shared.secret.Full())
  }

  lemma OwnExpects(m: Shared, t: nat, thread: Thread, o: Outcome)
    requires CanStep(m, thread) && ThreadOk(m, thread) && ThreadExpects(m.secret, thread)
    requires ReadsExpiry(thread) ==> o == Done
    requires thread.Rolling? ==> m.channel == []
    requires forall i :: 0 <= i < |m.channel| ==> Due(m.secret, m.channel[i])
    ensures var e := ThreadStep(m, t, thread, o);
            && ThreadExpects(e.shared.secret, e.thread)
            && (e.spawned.Some? ==> ThreadExpects(e.shared.secret, e.spawned.value))
            && (forall i :: 0 <= i < |e.shared.channel| ==> Due(e.shared.secret, e.shared.channel[i]))
  {
    StepDisturbs(m, t, thread, o);
  }

  lemma OtherExpects(m: Shared, thread: Thread, m': Shared, other: Thread)
    requires Disturbs(m, thread, m') && ThreadExpects(m.secret, other)
    requires thread.Rolling? ==> Carries(other) == 0
    ensures ThreadExpects(m'.secret, other)
  {
  }

  lemma ExpectingStep(s: State, t: nat, o: Outcome)
    requires Safe(s) && WatcherAlive(s) && Expecting(s) && Enabled(s, Step(t, o)) && ReadSucceeds(s, Step(t, o))
    ensures Expecting(Apply(s, Step(t, o)))
  {
    var thread := s.threads[t];
    var e := ThreadStep(s.shared, t, thread, o);
    CarriersCount(s.threads, t, t);
    OwnExpects(s.shared, t, thread, o);
    StepDisturbs(s.shared, t, thread, o);
    forall u | 0 <= u < |s.threads| && u != t
      ensures ThreadExpects(e.shared.secret, s.threads[u])
    {
      CarriersCount(s.threads, t, u);
      OtherExpects(s.shared, thread, e.shared, s.threads[u]);
    }
  }

  lemma {:induction false} ExpectingInRun(secret: Secret, nextCert: nat, actions: seq<Action>)
    requires secret.Full() && Run(Init(secret, nextCert), actions).Some?
    requires ExpiryReadsOk(Init(secret, nextCert), actions)
    ensures Expecting(Run(Init(secret, nextCert), actions).value)
  {
    if actions != [] {
      ExpectingInRun(secret, nextCert, Front(actions));
      AlwaysSafe(secret, nextCert, Front(actions));
      WatcherStaysAlive(secret, nextCert, Front(actions));
      if Last(actions).Step? {
        ExpectingStep(Run(Init(secret, nextCert), Front(actions)).value, Last(actions).thread, Last(actions).outcome);
      }
    }
  }

  lemma CurrentFrom(s: State)
    requires NoneStale(s) && Expecting(s)
    ensures AllCurrent(s)
  {
    forall t | 0 <= t < |s.threads|
      ensures ThreadCurrent(s.shared.secret, s.threads[t])
    {
      assert ThreadNotStale(s.shared.secret, s.threads[t]) && ThreadExpects(s.shared.secret, s.threads[t]);
    }
  }

  // ---------- a pair installed after the first read ----------

  /** A reconcile call, in the third thread, makes the pair. */
  const INSTALL: seq<Action> := [Reconcile, Step(2, Done), Step(2, Done), Step(2, Done), Step(2, Done)]

  function Pair(cert: nat): Secret {
    Present(Entries(Some(cert), Some(cert)))
  }

  lemma ReconcileChecks(m: Shared, d: Deadline)
    requires !m.secret.Full() && m.lock == None
    ensures Run(State(true, [Watching, Timer(d)], m), INSTALL[..3]) ==
            Some(State(true, [Watching, Timer(d), Reconciling(Generate(m.secret.Present?))],
                       m.(clock := m.clock + 3, lock := Some(2))))
  {
    var start, timer := State(true, [Watching, Timer(d)], m), Timer(d);
    var s1 := State(true, [Watching, timer, Reconciling(Lock)], m.(clock := m.clock + 1));
    RunNext(start, INSTALL, 0, start, s1);
    var s2 := State(true, [Watching, timer, Reconciling(Check)], m.(clock := m.clock + 2, lock := Some(2)));
    RunNext(start, INSTALL, 1, s1, s2);
    RunNext(start, INSTALL, 2, s2,
            State(true, [Watching, timer, Reconciling(Generate(m.secret.Present?))],
                  m.(clock := m.clock + 3, lock := Some(2))));
  }

  lemma ReconcileInstalls(m: Shared, d: Deadline)
    requires !m.secret.Full() && m.lock == None
    ensures Run(State(true, [Watching, Timer(d)], m), INSTALL) ==
            Some(State(true, [Watching, Timer(d), Finished],
                       m.(clock := m.clock + 5, nextCert := m.nextCert + 1, lastWrite := m.clock + 4,
                          written := m.written + 1, secret := Pair(m.nextCert))))
  {
    ReconcileChecks(m, d);
    var start, timer, present := State(true, [Watching, Timer(d)], m), Timer(d), m.secret.Present?;
    var s3 := State(true, [Watching, timer, Reconciling(Generate(present))], m.(clock := m.clock + 3, lock := Some(2)));
    var s4 := State(true, [Watching, timer, Reconciling(Write(present, m.nextCert))],
                    m.(clock := m.clock + 4, lock := Some(2), nextCert := m.nextCert + 1));
    RunNext(start, INSTALL, 3, s3, s4);
    var s5 := State(true, [Watching, timer, Finished],
                    m.(clock := m.clock + 5, nextCert := m.nextCert + 1, lastWrite := m.clock + 4,
                       written := m.written + 1, secret := Pair(m.nextCert)));
    RunNext(start, INSTALL, 4, s4, s5);
    assert INSTALL[..5] == INSTALL;
  }

  /** Unless a full pair is there from the start, and with every call succeeding, the first
      timer is set without it and is still pending once the pair is installed: an ordinary new
      installation ends with the fallback delay running against a certificate just made. */
  lemma LateInstall(secret: Secret, nextCert: nat)
    requires !secret.Full()
    ensures var end := Run(Init(secret, nextCert), SET_TIMER + INSTALL);
            && end.Some?
            && end.value.threads == [Watching, Timer(Expiry(secret, Done)), Finished]
            && end.value.shared.secret == Pair(nextCert)
    ensures secret == Absent ==> Expiry(secret, Done) == Fallback
  {
    TimerSet(secret, nextCert);
    RunConcat(Init(secret, nextCert), SET_TIMER, INSTALL);
    ReconcileInstalls(Init(secret, nextCert).shared.(clock := 5), Expiry(secret, Done));
  }

  lemma {:induction false} AllDoneReadsOk(start: State, actions: seq<Action>)
    requires forall i :: 0 <= i < |actions| ==> (actions[i].Step? ==> actions[i].outcome == Done)
    ensures ExpiryReadsOk(start, actions)
  {
    if actions != [] {
      AllDoneReadsOk(start, Front(actions));
    }
  }

  // ---------- the exact conditions ----------

  /** No deadline of an earlier certificate is ever under way exactly when the secret found at the
      start was not a certificate without its key. */
  lemma NeverStaleExactly(secret: Secret, nextCert: nat)
    requires secret.Present? && secret.data.Entries? && secret.data.cert.Some? ==> secret.data.cert.value < nextCert
    ensures (forall actions :: Run(Init(secret, nextCert), actions).Some? ==>
               NoneStale(Run(Init(secret, nextCert), actions).value)) <==> Whole(secret)
  {
    if Whole(secret) {
      forall actions | Run(Init(secret, nextCert), actions).Some?
        ensures NoneStale(Run(Init(secret, nextCert), actions).value)
      {
        NoneStaleInRun(secret, nextCert, actions);
      }
    } else {
      LateInstall(secret, nextCert);
      var s := Run(Init(secret, nextCert), SET_TIMER + INSTALL).value;
      assert !ThreadNotStale(s.shared.secret, s.threads[1]);
    }
  }

  /** Where no read of an expiry date fails, every deadline under way is that of the installed
      certificate, whenever a full pair is installed, exactly when a full pair was there at
      the start. */
  lemma DeadlinesCurrentExactly(secret: Secret, nextCert: nat)
    requires secret.Present? && secret.data.Entries? && secret.data.cert.Some? ==> secret.data.cert.value < nextCert
    ensures (forall actions ::
               Run(Init(secret, nextCert), actions).Some? && ExpiryReadsOk(Init(secret, nextCert), actions) ==>
               AllCurrent(Run(Init(secret, nextCert), actions).value)) <==> secret.Full()
  {
    var start := Init(secret, nextCert);
    if secret.Full() {
      forall actions | Run(start, actions).Some? && ExpiryReadsOk(start, actions)
        ensures AllCurrent(Run(start, actions).value)
      {
        NoneStaleInRun(secret, nextCert, actions);
        ExpectingInRun(secret, nextCert, actions);
        CurrentFrom(Run(start, actions).value);
      }
    } else {
      LateInstall(secret, nextCert);
      AllDoneReadsOk(start, SET_TIMER + INSTALL);
      var s := Run(start, SET_TIMER + INSTALL).value;
      assert !ThreadCurrent(s.shared.secret, s.threads[1]);
    }
  }
}
