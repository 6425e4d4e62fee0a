/** How the certificate rotation answers to calls that fail, and what it puts in place of the
    certificate it found (pkg/install/admissioncontroller/admission_controller.go:361-562). */
module CertificateOutcomes {
  import opened Sequences
  import opened Wrappers
  import opened CertificateRotation
  import opened CertificateLaws

  // ---------- what an outcome means ----------

  /** The secret and the pods are as before. */
  predicate Untouched(m: Shared, m': Shared) {
    && m'.secret == m.secret && m'.restarts == m.restarts
    && m'.written == m.written && m'.cleared == m.cleared
  }

  lemma RefusedChangesNothing(m: Shared, t: nat, thread: Thread)
    requires CanStep(m, thread)
    ensures Untouched(m, ThreadStep(m, t, thread, Refused).shared)
  {
  }

  lemma LostReplyTakesEffect(m: Shared, t: nat, thread: Thread)
    requires CanStep(m, thread)
    ensures Untouched(ThreadStep(m, t, thread, Done).shared, ThreadStep(m, t, thread, LostReply).shared)
  {
  }

  /** The next step of the thread is a call, not a lock or channel operation. */
  predicate Calling(thread: Thread) {
    match thread
    case Rolling(_, _, Regenerate(Lock)) => false
    case Rolling(_, _, _) => true
    case Reconciling(g) => !g.Lock?
    case _ => false
  }

  /** A call that fails, whether it took effect or not, is never passed over: it ends a reconcile
      call, and an attempt, which is retried from its read or else given up. */
  lemma FailedCallEnds(m: Shared, t: nat, thread: Thread, o: Outcome)
    requires CanStep(m, thread) && Calling(thread) && o != Done
    ensures var e := ThreadStep(m, t, thread, o);
            && e.spawned == None
            && (thread.Reconciling? ==> e.thread == Finished && e.shared.gaveUp == m.gaveUp)
            && (thread.Rolling? && thread.retries > 0 ==>
                  && e.thread.Rolling? && e.thread.attempt == ReadSecret && e.thread.retries == thread.retries - 1
                  && e.shared.gaveUp == m.gaveUp)
            && (thread.Rolling? && thread.retries == 0 ==> e.thread == Finished && e.shared.gaveUp == m.gaveUp + 1)
  {
  }

  /** A rolling update ends in two ways: with the pods restarted, and then the next check is
      scheduled, or given up. */
  lemma RollingEnds(m: Shared, t: nat, thread: Thread, o: Outcome)
    requires CanStep(m, thread) && thread.Rolling?
    ensures var e := ThreadStep(m, t, thread, o);
            !e.thread.Rolling? ==>
              && e.thread == Finished
              && if o == Done && thread.attempt.DeletePods?
                 then e.shared.restarts == m.restarts + 1 && e.shared.gaveUp == m.gaveUp
                      && e.spawned == Some(Scheduling(ReadExpiry))
                 else e.shared.gaveUp == m.gaveUp + 1 && e.spawned == None
  {
  }

  // ---------- over whole runs ----------

  /** How many goroutines to schedule the next check a run starts. */
  ghost function Scheduled(start: State, actions: seq<Action>): nat {
    if actions == [] then 0
    else
      Scheduled(start, Front(actions)) +
      match Run(start, Front(actions))
      case None => 0
      case Some(s) => if Starts(s, Last(actions)) then 1 else 0
  }

  predicate Starts(s: State, a: Action) {
    && a.Step? && Enabled(s, a)
    && var e := ThreadStep(s.shared, a.thread, s.threads[a.thread], a.outcome);
    e.spawned.Some? && e.spawned.value.Scheduling?
  }

  lemma StartsRestart(m: Shared, t: nat, thread: Thread, o: Outcome)
    requires CanStep(m, thread)
    ensures var e := ThreadStep(m, t, thread, o);
            m.restarts + (if e.spawned.Some? && e.spawned.value.Scheduling? then 1 else 0) <= e.shared.restarts
  {
  }

  /** In every run a next check is scheduled at most once for every restart of the pods. */
  lemma {:induction false} ScheduledAfterRestarts(secret: Secret, nextCert: nat, actions: seq<Action>)
    requires Run(Init(secret, nextCert), actions).Some?
    ensures Scheduled(Init(secret, nextCert), actions) <= Run(Init(secret, nextCert), actions).value.shared.restarts
  {
    if actions != [] {
      ScheduledAfterRestarts(secret, nextCert, Front(actions));
      var s, a := Run(Init(secret, nextCert), Front(actions)).value, Last(actions);
      if a.Step? {
        StartsRestart(s.shared, a.thread, s.threads[a.thread], a.outcome);
      }
    }
  }

  /** An attempt of a rolling update fails in this step: a call fails, or the read finds nil data. */
  predicate Fails(s: State, a: Action) {
    && a.Step? && a.thread < |s.threads| && s.threads[a.thread].Rolling? && Calling(s.threads[a.thread])
    && (a.outcome != Done || (s.threads[a.thread].attempt.ReadSecret? && s.shared.secret == Present(Nil)))
  }

  ghost function Failures(start: State, actions: seq<Action>): nat {
    if actions == [] then 0
    else
      Failures(start, Front(actions)) +
      match Run(start, Front(actions))
      case None => 0
      case Some(s) => if Fails(s, Last(actions)) then 1 else 0
  }

  /** Attempts of a rolling update that have failed so far. */
  function Spent(thread: Thread): int {
    if thread.Rolling? then 4 - thread.retries else 0
  }

  function SpentAll(threads: seq<Thread>): int {
    if threads == [] then 0 else SpentAll(Front(threads)) + Spent(Last(threads))
  }

  lemma {:induction false} SpentPut(threads: seq<Thread>, t: nat, thread: Thread)
    requires t < |threads|
    ensures SpentAll(threads[t := thread]) + Spent(threads[t]) == SpentAll(threads) + Spent(thread)
  {
    if t == |threads| - 1 {
      assert Front(threads[t := thread]) == Front(threads);
    } else {
      assert Front(threads[t := thread]) == Front(threads)[t := thread];
      SpentPut(Front(threads), t, thread);
    }
  }

  predicate WithinBudget(thread: Thread) {
    thread.Rolling? ==> thread.retries <= 4
  }

  lemma StepSpends(m: Shared, t: nat, thread: Thread, o: Outcome)
    requires CanStep(m, thread) && ThreadOk(m, thread) && WithinBudget(thread)
    ensures var e := ThreadStep(m, t, thread, o);
            var fails := thread.Rolling? && Calling(thread) &&
                         (o != Done || (thread.attempt.ReadSecret? && m.secret == Present(Nil)));
            && 5 * e.shared.gaveUp + Spent(e.thread) <= 5 * m.gaveUp + Spent(thread) + (if fails then 1 else 0)
            && WithinBudget(e.thread) && (e.spawned.Some? ==> !e.spawned.value.Rolling?)
  {
  }

  ghost predicate BudgetKept(s: State, failures: nat) {
    && 5 * s.shared.gaveUp + SpentAll(s.threads) <= failures
    && forall t :: 0 <= t < |s.threads| ==> WithinBudget(s.threads[t])
  }

  lemma SpentSpawn(threads: seq<Thread>, spawned: Option<Thread>)
    requires spawned.Some? ==> !spawned.value.Rolling?
    ensures SpentAll(Spawn(threads, spawned)) == SpentAll(threads)
  {
    if spawned.Some? {
      FrontOfSnoc(threads, spawned.value);
    }
  }

  lemma BudgetThreadStep(s: State, t: nat, o: Outcome, failures: nat)
    requires BudgetKept(s, failures) && Safe(s) && Enabled(s, Step(t, o))
    ensures BudgetKept(Apply(s, Step(t, o)), failures + if Fails(s, Step(t, o)) then 1 else 0)
  {
    var e := ThreadStep(s.shared, t, s.threads[t], o);
    StepSpends(s.shared, t, s.threads[t], o);
    SpentPut(s.threads, t, e.thread);
    SpentSpawn(s.threads[t := e.thread], e.spawned);
  }

  lemma BudgetStep(s: State, a: Action, failures: nat)
    requires BudgetKept(s, failures) && Safe(s) && Enabled(s, a)
    ensures BudgetKept(Apply(s, a), failures + if Fails(s, a) then 1 else 0)
  {
    match a {
      case NewMaintainer => SpentSpawn(s.threads, Some(Starting(ReadExpiry)));
      case Reconcile => SpentSpawn(s.threads, Some(Reconciling(Lock)));
      case Step(t, o) => BudgetThreadStep(s, t, o, failures);
    }
  }

  lemma {:induction false} BudgetInRun(secret: Secret, nextCert: nat, actions: seq<Action>)
    requires Run(Init(secret, nextCert), actions).Some?
    ensures BudgetKept(Run(Init(secret, nextCert), actions).value, Failures(Init(secret, nextCert), actions))
  {
    if actions != [] {
      BudgetInRun(secret, nextCert, Front(actions));
      AlwaysSafe(secret, nextCert, Front(actions));
      BudgetStep(Run(Init(secret, nextCert), Front(actions)).value, Last(actions),
                 Failures(Init(secret, nextCert), Front(actions)));
    }
  }

  lemma {:induction false} SpentIsNat(threads: seq<Thread>)
    requires forall t :: 0 <= t < |threads| ==> WithinBudget(threads[t])
    ensures SpentAll(threads) >= 0
  {
    if threads != [] {
      SpentIsNat(Front(threads));
    }
  }

  /** In every run a rolling update is given up only after five of its attempts have failed. */
  lemma GivingUpTakesFive(secret: Secret, nextCert: nat, actions: seq<Action>)
    requires Run(Init(secret, nextCert), actions).Some?
    ensures 5 * Run(Init(secret, nextCert), actions).value.shared.gaveUp <= Failures(Init(secret, nextCert), actions)
  {
    BudgetInRun(secret, nextCert, actions);
    SpentIsNat(Run(Init(secret, nextCert), actions).value.threads);
  }

  /** k reads in a row by thread t, all refused. */
  function RefusedReads(t: nat, k: nat): seq<Action> {
    if k == 0 then [] else RefusedReads(t, k - 1) + [Step(t, Refused)]
  }

  lemma {:induction false} ReadsRefused(s: State, t: nat, k: nat)
    requires t < |s.threads| && s.threads[t].Rolling? && s.threads[t].attempt == ReadSecret
    requires s.threads[t].retries == 4 && k <= 5
    ensures var end := Run(s, RefusedReads(t, k));
            && end.Some? && |end.value.threads| == |s.threads|
            && end.value.shared.secret == s.shared.secret
            && (k < 5 ==> && end.value.threads[t].Rolling? && end.value.threads[t].attempt == ReadSecret
                          && end.value.threads[t].retries == 4 - k && end.value.shared.gaveUp == s.shared.gaveUp)
            && (k == 5 ==> end.value.threads[t] == Finished && end.value.shared.gaveUp == s.shared.gaveUp + 1)
  {
    if k > 0 {
      ReadsRefused(s, t, k - 1);
      FrontOfSnoc(RefusedReads(t, k - 1), Step(t, Refused));
    }
  }

  /** And after five it is: a timer fires, and the read of the secret fails five times. */
  lemma FiveFailuresGiveUp(s: State, t: nat)
    requires t < |s.threads| && s.threads[t].Timer?
    ensures forall k :: 0 <= k <= 5 ==>
              var end := Run(s, [Step(t, Done)] + RefusedReads(t, k));
              && end.Some? && t < |end.value.threads|
              && (k < 5 ==> end.value.threads[t].Rolling? && end.value.shared.gaveUp == s.shared.gaveUp)
              && (k == 5 ==> end.value.threads[t] == Finished && end.value.shared.gaveUp == s.shared.gaveUp + 1)
  {
    var fired := Apply(s, Step(t, Done));
    assert Front([Step(t, Done)]) == [];
    assert Run(s, [Step(t, Done)]) == Some(fired);
    forall k | 0 <= k <= 5
      ensures var end := Run(s, [Step(t, Done)] + RefusedReads(t, k));
              && end.Some? && t < |end.value.threads|
              && (k < 5 ==> end.value.threads[t].Rolling? && end.value.shared.gaveUp == s.shared.gaveUp)
              && (k == 5 ==> end.value.threads[t] == Finished && end.value.shared.gaveUp == s.shared.gaveUp + 1)
    {
      RunConcat(s, [Step(t, Done)], RefusedReads(t, k));
      ReadsRefused(fired, t, k);
    }
  }

  // ---------- failing expiry reads ----------

  predicate NoExpiryRead(s: State, a: Action) {
    a.Step? && a.thread < |s.threads| && s.threads[a.thread] in {Starting(ReadExpiry), Scheduling(ReadExpiry)} ==>
      a.outcome != Done || !HasCertificate(s.shared.secret)
  }

  predicate HasCertificate(secret: Secret) {
    secret.Present? && secret.data.Entries? && secret.data.cert.Some?
  }

  /** No read in the run finds a certificate, be it that the read fails or that there is none. */
  ghost predicate NoExpiryReads(start: State, actions: seq<Action>) {
    actions != [] ==>
      && NoExpiryReads(start, Front(actions))
      && (Run(start, Front(actions)).Some? ==> NoExpiryRead(Run(start, Front(actions)).value, Last(actions)))
  }

  predicate ThreadFallback(thread: Thread) {
    match thread
    case Starting(Send(d)) => d == Fallback
    case Timer(d) => d == Fallback
    case Scheduling(Send(d)) => d == Fallback
    case _ => true
  }

  ghost predicate AllFallback(s: State) {
    && (forall i :: 0 <= i < |s.shared.channel| ==> s.shared.channel[i] == Fallback)
    && (forall t :: 0 <= t < |s.threads| ==> ThreadFallback(s.threads[t]))
  }

  lemma FallbackStep(m: Shared, t: nat, thread: Thread, o: Outcome)
    requires CanStep(m, thread) && ThreadFallback(thread)
    requires forall i :: 0 <= i < |m.channel| ==> m.channel[i] == Fallback
    requires thread in {Starting(ReadExpiry), Scheduling(ReadExpiry)} ==> o != Done || !HasCertificate(m.secret)
    ensures var e := ThreadStep(m, t, thread, o);
            && ThreadFallback(e.thread) && (e.spawned.Some? ==> ThreadFallback(e.spawned.value))
            && (forall i :: 0 <= i < |e.shared.channel| ==> e.shared.channel[i] == Fallback)
  {
  }

  /** Then every deadline under way is the fallback delay. */
  lemma {:induction false} FallbackWithoutReads(secret: Secret, nextCert: nat, actions: seq<Action>)
    requires Run(Init(secret, nextCert), actions).Some? && NoExpiryReads(Init(secret, nextCert), actions)
    ensures AllFallback(Run(Init(secret, nextCert), actions).value)
  {
    if actions != [] {
      FallbackWithoutReads(secret, nextCert, Front(actions));
      var s, a := Run(Init(secret, nextCert), Front(actions)).value, Last(actions);
      if a.Step? {
        FallbackStep(s.shared, a.thread, s.threads[a.thread], a.outcome);
      }
    }
  }

  // ---------- the certificate found is replaced ----------

  /** The certificate this thread is about to write. */
  function Pending(thread: Thread): Option<nat> {
    match thread
    case Rolling(_, _, Regenerate(Write(_, cert))) => Some(cert)
    case Reconciling(Write(_, cert)) => Some(cert)
    case _ => None
  }

  predicate Holds(secret: Secret, cert: nat) {
    HasCertificate(secret) && secret.data.cert.value == cert
  }

  predicate PendingFresh(m: Shared, thread: Thread) {
    Pending(thread).Some? ==> Pending(thread).value < m.nextCert && !Holds(m.secret, Pending(thread).value)
  }

  /** A certificate held or pending has been made, and none is both. */
  ghost predicate Fresh(s: State) {
    && (HasCertificate(s.shared.secret) ==> s.shared.secret.data.cert.value < s.shared.nextCert)
    && (forall t :: 0 <= t < |s.threads| ==> PendingFresh(s.shared, s.threads[t]))
  }

  lemma ReconcilingFresh(m: Shared, t: nat, thread: Thread, o: Outcome)
    requires CanStep(m, thread) && PendingFresh(m, thread)
    requires HasCertificate(m.secret) ==> m.secret.data.cert.value < m.nextCert
    requires thread.Reconciling?
    ensures var e := ThreadStep(m, t, thread, o);
            && m.nextCert <= e.shared.nextCert
            && (HasCertificate(e.shared.secret) ==> e.shared.secret.data.cert.value < e.shared.nextCert)
            && PendingFresh(e.shared, e.thread)
            && (e.spawned.Some? ==> Pending(e.spawned.value) == None)
  {
  }

  lemma RollingFresh(m: Shared, t: nat, thread: Thread, o: Outcome)
    requires CanStep(m, thread) && PendingFresh(m, thread)
    requires HasCertificate(m.secret) ==> m.secret.data.cert.value < m.nextCert
    requires thread.Rolling?
    ensures var e := ThreadStep(m, t, thread, o);
            && m.nextCert <= e.shared.nextCert
            && (HasCertificate(e.shared.secret) ==> e.shared.secret.data.cert.value < e.shared.nextCert)
            && PendingFresh(e.shared, e.thread)
            && (e.spawned.Some? ==> Pending(e.spawned.value) == None)
  {
  }

  lemma StepFresh(m: Shared, t: nat, thread: Thread, o: Outcome)
    requires CanStep(m, thread) && PendingFresh(m, thread)
    requires HasCertificate(m.secret) ==> m.secret.data.cert.value < m.nextCert
    ensures var e := ThreadStep(m, t, thread, o);
            && m.nextCert <= e.shared.nextCert
            && (HasCertificate(e.shared.secret) ==> e.shared.secret.data.cert.value < e.shared.nextCert)
            && PendingFresh(e.shared, e.thread)
            && (e.spawned.Some? ==> Pending(e.spawned.value) == None)
  {
    if thread.Reconciling? {
      ReconcilingFresh(m, t, thread, o);
    } else if thread.Rolling? {
      RollingFresh(m, t, thread, o);
    }
  }

  lemma OtherFresh(m: Shared, thread: Thread, m': Shared, other: Thread)
    requires Disturbs(m, thread, m') && m.nextCert <= m'.nextCert && PendingFresh(m, other)
    requires InLock(thread) ==> !InLock(other)
    ensures PendingFresh(m', other)
  {
  }

  lemma FreshStep(s: State, t: nat, o: Outcome)
    requires Safe(s) && Fresh(s) && Enabled(s, Step(t, o))
    ensures Fresh(Apply(s, Step(t, o)))
  {
    var thread := s.threads[t];
    var e := ThreadStep(s.shared, t, thread, o);
    StepFresh(s.shared, t, thread, o);
    StepDisturbs(s.shared, t, thread, o);
    forall u | 0 <= u < |s.threads| && u != t
      ensures PendingFresh(e.shared, s.threads[u])
    {
      OtherFresh(s.shared, thread, e.shared, s.threads[u]);
    }
  }

  lemma {:induction false} FreshInRun(secret: Secret, nextCert: nat, actions: seq<Action>)
    requires Run(Init(secret, nextCert), actions).Some?
    requires HasCertificate(secret) ==> secret.data.cert.value < nextCert
    ensures var s := Run(Init(secret, nextCert), actions).value; Fresh(s) && s.shared.clock == |actions| + 1
  {
    if actions != [] {
      FreshInRun(secret, nextCert, Front(actions));
      AlwaysSafe(secret, nextCert, Front(actions));
      if Last(actions).Step? {
        FreshStep(Run(Init(secret, nextCert), Front(actions)).value, Last(actions).thread, Last(actions).outcome);
      }
    }
  }

  /** Nobody will write this certificate any more, and once a pair has been written after step n
      it is not the one held. */
  ghost predicate Ousted(s: State, cert: nat, n: nat) {
    && cert < s.shared.nextCert
    && (forall t :: 0 <= t < |s.threads| ==> Pending(s.threads[t]) != Some(cert))
    && (s.shared.lastWrite > n ==> !Holds(s.shared.secret, cert))
  }

  lemma ReconcilingOusts(m: Shared, t: nat, thread: Thread, o: Outcome, cert: nat, n: nat)
    requires CanStep(m, thread) && cert < m.nextCert && Pending(thread) != Some(cert)
    requires m.lastWrite > n ==> !Holds(m.secret, cert)
    requires thread.Reconciling?
    ensures var e := ThreadStep(m, t, thread, o);
            && cert < e.shared.nextCert && Pending(e.thread) != Some(cert)
            && (e.spawned.Some? ==> Pending(e.spawned.value) != Some(cert))
            && (e.shared.lastWrite > n ==> !Holds(e.shared.secret, cert))
  {
  }

  lemma RollingOusts(m: Shared, t: nat, thread: Thread, o: Outcome, cert: nat, n: nat)
    requires CanStep(m, thread) && cert < m.nextCert && Pending(thread) != Some(cert)
    requires m.lastWrite > n ==> !Holds(m.secret, cert)
    requires thread.Rolling?
    ensures var e := ThreadStep(m, t, thread, o);
            && cert < e.shared.nextCert && Pending(e.thread) != Some(cert)
            && (e.spawned.Some? ==> Pending(e.spawned.value) != Some(cert))
            && (e.shared.lastWrite > n ==> !Holds(e.shared.secret, cert))
  {
  }

  lemma StepOusts(m: Shared, t: nat, thread: Thread, o: Outcome, cert: nat, n: nat)
    requires CanStep(m, thread) && cert < m.nextCert && Pending(thread) != Some(cert)
    requires m.lastWrite > n ==> !Holds(m.secret, cert)
    ensures var e := ThreadStep(m, t, thread, o);
            && cert < e.shared.nextCert && Pending(e.thread) != Some(cert)
            && (e.spawned.Some? ==> Pending(e.spawned.value) != Some(cert))
            && (e.shared.lastWrite > n ==> !Holds(e.shared.secret, cert))
  {
    if thread.Reconciling? {
      ReconcilingOusts(m, t, thread, o, cert, n);
    } else if thread.Rolling? {
      RollingOusts(m, t, thread, o, cert, n);
    }
  }

  lemma {:induction false} OustedSince(secret: Secret, nextCert: nat, actions: seq<Action>, k: nat, cert: nat)
    requires k <= |actions| && Run(Init(secret, nextCert), actions).Some?
    requires Run(Init(secret, nextCert), actions[..k]).Some?
    requires HasCertificate(secret) ==> secret.data.cert.value < nextCert
    requires Holds(Run(Init(secret, nextCert), actions[..k]).value.shared.secret, cert)
    requires Run(Init(secret, nextCert), actions[..k]).value.shared.lastWrite <= k
    ensures Ousted(Run(Init(secret, nextCert), actions).value, cert, k + 1)
    decreases |actions|
  {
    if k == |actions| {
      assert actions[..k] == actions;
      FreshInRun(secret, nextCert, actions);
    } else {
      assert Front(actions)[..k] == actions[..k];
      OustedSince(secret, nextCert, Front(actions), k, cert);
      var s, a := Run(Init(secret, nextCert), Front(actions)).value, Last(actions);
      if a.Step? {
        StepOusts(s.shared, a.thread, s.threads[a.thread], a.outcome, cert, k + 1);
      }
    }
  }

  /** Step n of the run is this thread's successful read of the secret. */
  ghost predicate ReadHere(start: State, actions: seq<Action>, t: nat, n: nat) {
    && 0 < n <= |actions| && actions[n - 1] == Step(t, Done)
    && match Run(start, actions[..n - 1])
       case None => false
       case Some(s) => t < |s.threads| && s.threads[t].Rolling? && s.threads[t].attempt == ReadSecret
  }

  predicate PastRead(thread: Thread) {
    thread.Rolling? && thread.attempt != ReadSecret
  }

  lemma StepReads(m: Shared, t: nat, thread: Thread, o: Outcome)
    requires CanStep(m, thread)
    ensures var e := ThreadStep(m, t, thread, o);
            && (e.spawned.Some? ==> !PastRead(e.spawned.value))
            && (PastRead(e.thread) ==>
                  || (PastRead(thread) && e.thread.readAt == thread.readAt)
                  || (thread.Rolling? && thread.attempt == ReadSecret && o == Done && e.thread.readAt == m.clock))
            && e.shared.lastWrite <= (if m.lastWrite <= m.clock then m.clock else m.lastWrite)
  {
  }

  lemma ReadEarlier(start: State, actions: seq<Action>, t: nat, n: nat)
    requires actions != [] && ReadHere(start, Front(actions), t, n)
    ensures ReadHere(start, actions, t, n)
  {
    assert Front(actions)[..n - 1] == actions[..n - 1];
  }

  /** An attempt past its read carries the number of the step in which it read. */
  lemma {:induction false} ReadsMarked(secret: Secret, nextCert: nat, actions: seq<Action>, t: nat)
    requires Run(Init(secret, nextCert), actions).Some?
    ensures var s := Run(Init(secret, nextCert), actions).value;
            && s.shared.clock == |actions| + 1 && s.shared.lastWrite <= |actions|
            && (t < |s.threads| && PastRead(s.threads[t]) ==>
                  ReadHere(Init(secret, nextCert), actions, t, s.threads[t].readAt))
  {
    if actions != [] {
      var start, a := Init(secret, nextCert), Last(actions);
      ReadsMarked(secret, nextCert, Front(actions), t);
      var s := Run(start, Front(actions)).value;
      if t < |s.threads| && PastRead(s.threads[t]) {
        ReadEarlier(start, actions, t, s.threads[t].readAt);
      }
      if a.Step? {
        StepReads(s.shared, a.thread, s.threads[a.thread], a.outcome);
      }
    }
  }

  /** Whenever a rolling update restarts the pods, whatever reconcile calls ran meanwhile, the
      certificate they will find is another one than its attempt found when it read the secret. */
  lemma RotationReplaces(secret: Secret, nextCert: nat, actions: seq<Action>, t: nat, o: Outcome)
    requires HasCertificate(secret) ==> secret.data.cert.value < nextCert
    requires Run(Init(secret, nextCert), actions).Some?
    requires var s := Run(Init(secret, nextCert), actions).value;
             Enabled(s, Step(t, o)) && Apply(s, Step(t, o)).shared.restarts != s.shared.restarts
    ensures var start, s := Init(secret, nextCert), Run(Init(secret, nextCert), actions).value;
            && s.threads[t].Rolling? && ReadHere(start, actions, t, s.threads[t].readAt)
            && var found := Run(start, actions[..s.threads[t].readAt - 1]).value.shared.secret;
            && s.shared.secret.Full()
            && (HasCertificate(found) ==> s.shared.secret.data.cert != found.data.cert)
  {
    var start, s := Init(secret, nextCert), Run(Init(secret, nextCert), actions).value;
    RotationSafety(secret, nextCert, actions, t, o);
    RestartsWhere(s.shared, t, s.threads[t], o);
    ReadsMarked(secret, nextCert, actions, t);
    var k := s.threads[t].readAt - 1;
    ReadsMarked(secret, nextCert, actions[..k], t);
    var found := Run(start, actions[..k]).value.shared.secret;
    if HasCertificate(found) {
      OustedSince(secret, nextCert, actions, k, found.data.cert.value);
    }
  }
}
