/** What every interleaving of the certificate rotation keeps. */
module CertificateLaws {
  import opened Sequences
  import opened Wrappers
  import opened CertificateRotation

  // ---------- the renewal token ----------

  /** Does this thread carry the duty to renew? */
  function Carries(thread: Thread): nat {
    match thread
    case Starting(_) => 1
    case Timer(_) => 1
    case Rolling(_, _, _) => 1
    case Scheduling(_) => 1
    case _ => 0
  }

  function Carriers(threads: seq<Thread>): nat {
    if threads == [] then 0 else Carriers(Front(threads)) + Carries(Last(threads))
  }

  function Tokens(s: State): nat {
    |s.shared.channel| + Carriers(s.threads)
  }

  /** From the start on there is one token, in one place, until a retry budget is used up;
      and no deadline was ever dropped at a full channel. */
  predicate OneToken(s: State) {
    && Tokens(s) + s.shared.gaveUp == (if s.started then 1 else 0)
    && s.shared.dropped == 0
  }

  lemma {:induction false} CarriersPut(threads: seq<Thread>, t: nat, thread: Thread)
    requires t < |threads|
    ensures Carriers(threads[t := thread]) + Carries(threads[t]) == Carriers(threads) + Carries(thread)
  {
    if t == |threads| - 1 {
      assert Front(threads[t := thread]) == Front(threads);
    } else {
      assert Front(threads[t := thread]) == Front(threads)[t := thread];
      CarriersPut(Front(threads), t, thread);
    }
  }

  lemma CarriersSpawn(threads: seq<Thread>, thread: Thread)
    ensures Carriers(threads + [thread]) == Carriers(threads) + Carries(thread)
  {
    FrontOfSnoc(threads, thread);
  }

  /** Two carriers are two tokens. */
  lemma {:induction false} CarriersCount(threads: seq<Thread>, t: nat, u: nat)
    requires t < |threads| && u < |threads|
    ensures Carries(threads[t]) <= Carriers(threads)
    ensures t != u ==> Carries(threads[t]) + Carries(threads[u]) <= Carriers(threads)
  {
    if t < |threads| - 1 && u < |threads| - 1 {
      CarriersCount(Front(threads), t, u);
    } else if t < |threads| - 1 {
      CarriersCount(Front(threads), t, t);
    } else if u < |threads| - 1 {
      CarriersCount(Front(threads), u, u);
    }
  }

  /** A step passes the token on, uses it up, or never had it. */
  lemma StepPassesToken(m: Shared, t: nat, thread: Thread, o: Outcome)
    requires CanStep(m, thread) && (Carries(thread) == 1 ==> m.channel == [])
    ensures var e := ThreadStep(m, t, thread, o);
            && |e.shared.channel| + Carries(e.thread) + (if e.spawned.Some? then Carries(e.spawned.value) else 0) +
               e.shared.gaveUp == |m.channel| + Carries(thread) + m.gaveUp
            && e.shared.dropped == m.dropped
  {
  }

  lemma OneTokenStep(s: State, a: Action)
    requires OneToken(s) && Enabled(s, a)
    ensures OneToken(Apply(s, a))
  {
    match a {
      case NewMaintainer => CarriersSpawn(s.threads, Starting(ReadExpiry));
      case Reconcile => CarriersSpawn(s.threads, Reconciling(Lock));
      case Step(t, o) =>
        var e := ThreadStep(s.shared, t, s.threads[t], o);
        CarriersCount(s.threads, t, t);
        StepPassesToken(s.shared, t, s.threads[t], o);
        CarriersPut(s.threads, t, e.thread);
        if e.spawned.Some? {
          CarriersSpawn(s.threads[t := e.thread], e.spawned.value);
        }
    }
  }

  /** In every interleaving the duty to renew exists exactly once, counting the watcher still
      starting, the channel, timers, rolling updates and schedulers, until one rolling update
      has used up its retries; so the channel is empty at every send and nothing is dropped. */
  lemma {:induction false} RenewalToken(secret: Secret, nextCert: nat, actions: seq<Action>)
    requires Run(Init(secret, nextCert), actions).Some?
    ensures OneToken(Run(Init(secret, nextCert), actions).value)
  {
    if actions != [] {
      RenewalToken(secret, nextCert, Front(actions));
      OneTokenStep(Run(Init(secret, nextCert), Front(actions)).value, Last(actions));
    }
  }

  // ---------- no deadlock ----------

  lemma {:induction false} CarrierExists(threads: seq<Thread>) returns (t: nat)
    requires Carriers(threads) > 0
    ensures t < |threads| && Carries(threads[t]) == 1
  {
    if Carries(Last(threads)) == 1 {
      t := |threads| - 1;
    } else {
      t := CarrierExists(Front(threads));
    }
  }

  /** The first goroutine is the watcher, and it never ends. */
  predicate WatcherAlive(s: State) {
    if s.started then s.threads != [] && (s.threads[0].Starting? || s.threads[0].Watching?) else s.threads == []
  }

  lemma {:induction false} WatcherStaysAlive(secret: Secret, nextCert: nat, actions: seq<Action>)
    requires Run(Init(secret, nextCert), actions).Some?
    ensures WatcherAlive(Run(Init(secret, nextCert), actions).value)
  {
    if actions != [] {
      WatcherStaysAlive(secret, nextCert, Front(actions));
    }
  }

  /** Until a retry budget is used up, some thread can always move: the token's holder, the
      holder of the lock it waits for, or the watcher with a deadline to receive. */
  lemma RenewalNeverStuck(secret: Secret, nextCert: nat, actions: seq<Action>)
    requires Run(Init(secret, nextCert), actions).Some?
    requires var s := Run(Init(secret, nextCert), actions).value; s.started && s.shared.gaveUp == 0
    ensures var s := Run(Init(secret, nextCert), actions).value;
            exists t :: 0 <= t < |s.threads| && CanStep(s.shared, s.threads[t])
  {
    var s := Run(Init(secret, nextCert), actions).value;
    AlwaysSafe(secret, nextCert, actions);
    WatcherStaysAlive(secret, nextCert, actions);
    if Carriers(s.threads) > 0 {
      var t := CarrierExists(s.threads);
      if !CanStep(s.shared, s.threads[t]) {
        assert CanStep(s.shared, s.threads[s.shared.lock.value]);
      }
    } else {
      assert s.threads[0].Starting? ==> CanStep(s.shared, s.threads[0]);
    }
  }

  // ---------- rotation safety ----------

  predicate InLock(thread: Thread) {
    match thread
    case Rolling(_, _, Regenerate(g)) => !g.Lock?
    case Reconciling(g) => !g.Lock?
    case _ => false
  }

  /** Past the check, the secret still lacks a full pair and exists exactly as it was read. */
  predicate GenerationOk(m: Shared, g: Generation) {
    g.Generate? || g.Write? ==> !m.secret.Full() && (g.present <==> m.secret.Present?)
  }

  /** The installed pair was written after step n. */
  predicate WrittenAfter(m: Shared, n: nat) {
    m.secret.Full() && m.secret.data.key == m.secret.data.cert && m.lastWrite > n
  }

  predicate ThreadOk(m: Shared, thread: Thread) {
    match thread
    case Rolling(_, readAt, ClearSecret) => readAt < m.clock && m.secret.Present?
    case Rolling(_, readAt, Regenerate(g)) =>
      readAt < m.clock && GenerationOk(m, g) && (m.secret.Full() ==> WrittenAfter(m, readAt))
    case Rolling(_, readAt, DeletePods) => WrittenAfter(m, readAt)
    case Reconciling(g) => GenerationOk(m, g)
    case _ => true
  }

  ghost predicate Safe(s: State) {
    && OneToken(s)
    && (forall t :: 0 <= t < |s.threads| ==> (InLock(s.threads[t]) <==> s.shared.lock == Some(t)))
    && (s.shared.lock.Some? ==> s.shared.lock.value < |s.threads|)
    && (forall t :: 0 <= t < |s.threads| ==> ThreadOk(s.shared, s.threads[t]))
  }

  /** How a step may change what other threads rely on: not at all; by writing a full pair,
      under the lock, where there was none; or by clearing, in a rolling update. */
  predicate Disturbs(m: Shared, thread: Thread, m': Shared) {
    || (m'.secret == m.secret && m'.lastWrite == m.lastWrite)
    || (&& InLock(thread) && !m.secret.Full() && m'.lastWrite == m.clock
        && m'.secret.Full() && m'.secret.data.key == m'.secret.data.cert)
    || (thread.Rolling? && m.secret.Present? && m'.secret == Present(Nil) && m'.lastWrite == m.lastWrite)
  }

  lemma StepDisturbs(m: Shared, t: nat, thread: Thread, o: Outcome)
    requires CanStep(m, thread) && ThreadOk(m, thread)
    ensures var e := ThreadStep(m, t, thread, o);
            && Disturbs(m, thread, e.shared) && e.shared.clock == m.clock
  {
  }

  /** The stepping thread keeps its own promises, and takes or leaves the lock as it should. */
  lemma StepperOk(m: Shared, t: nat, thread: Thread, o: Outcome)
    requires CanStep(m, thread) && ThreadOk(m, thread) && (InLock(thread) <==> m.lock == Some(t))
    ensures var e := ThreadStep(m, t, thread, o);
            && ThreadOk(Tick(e.shared), e.thread)
            && (InLock(e.thread) <==> e.shared.lock == Some(t))
            && (|| e.shared.lock == m.lock || (m.lock == None && e.shared.lock == Some(t))
                || (m.lock == Some(t) && e.shared.lock == None))
            && (e.spawned.Some? ==> ThreadOk(Tick(e.shared), e.spawned.value) && !InLock(e.spawned.value))
  {
  }

  /** Another thread keeps its promises: it is not in the lock when a pair is written and
      not a rolling update when one is cleared. */
  lemma OtherOk(m: Shared, thread: Thread, m': Shared, other: Thread)
    requires ThreadOk(m, other) && Disturbs(m, thread, m') && m'.clock == m.clock
    requires InLock(thread) ==> !InLock(other)
    requires thread.Rolling? ==> !other.Rolling?
    ensures ThreadOk(Tick(m'), other)
  {
  }

  lemma SafeThreadStep(s: State, t: nat, o: Outcome)
    requires Safe(s) && Enabled(s, Step(t, o))
    ensures Safe(Apply(s, Step(t, o)))
  {
    var thread, s' := s.threads[t], Apply(s, Step(t, o));
    OneTokenStep(s, Step(t, o));
    StepperOk(s.shared, t, thread, o);
    StepDisturbs(s.shared, t, thread, o);
    forall u | 0 <= u < |s.threads| && u != t
      ensures ThreadOk(s'.shared, s.threads[u])
    {
      CarriersCount(s.threads, t, u);
      OtherOk(s.shared, thread, ThreadStep(s.shared, t, thread, o).shared, s.threads[u]);
    }
  }

  lemma SafeStep(s: State, a: Action)
    requires Safe(s) && Enabled(s, a)
    ensures Safe(Apply(s, a))
  {
    if a.Step? {
      SafeThreadStep(s, a.thread, a.outcome);
    } else {
      OneTokenStep(s, a);
      forall u | 0 <= u < |s.threads|
        ensures ThreadOk(Tick(s.shared), s.threads[u])
      {
        OtherOk(s.shared, Finished, s.shared, s.threads[u]);
      }
    }
  }

  lemma {:induction false} AlwaysSafe(secret: Secret, nextCert: nat, actions: seq<Action>)
    requires Run(Init(secret, nextCert), actions).Some?
    ensures Safe(Run(Init(secret, nextCert), actions).value)
  {
    if actions != [] {
      AlwaysSafe(secret, nextCert, Front(actions));
      SafeStep(Run(Init(secret, nextCert), Front(actions)).value, Last(actions));
    }
  }

  lemma RestartsWhere(m: Shared, t: nat, thread: Thread, o: Outcome)
    requires CanStep(m, thread) && ThreadStep(m, t, thread, o).shared.restarts != m.restarts
    ensures thread.Rolling? && thread.attempt.DeletePods?
  {
  }

  /** Whenever a rolling update restarts the pods, the secret holds a key and certificate of
      one generation, written after this attempt read the old secret, whatever reconcile
      calls ran meanwhile. */
  lemma RotationSafety(secret: Secret, nextCert: nat, actions: seq<Action>, t: nat, o: Outcome)
    requires Run(Init(secret, nextCert), actions).Some?
    requires var s := Run(Init(secret, nextCert), actions).value;
             Enabled(s, Step(t, o)) && Apply(s, Step(t, o)).shared.restarts != s.shared.restarts
    ensures var s := Run(Init(secret, nextCert), actions).value;
            s.threads[t].Rolling? && WrittenAfter(s.shared, s.threads[t].readAt)
  {
    AlwaysSafe(secret, nextCert, actions);
    var s := Run(Init(secret, nextCert), actions).value;
    RestartsWhere(s.shared, t, s.threads[t], o);
  }

  /** The two stamps mean what their names say: a step sets lastWrite to its own number exactly
      when it writes a pair, and an attempt's readAt is the number of the step that read. */
  lemma StampsMarkSteps(m: Shared, t: nat, thread: Thread, o: Outcome)
    requires CanStep(m, thread) && m.lastWrite < m.clock
    ensures var e := ThreadStep(m, t, thread, o);
            && (e.shared.written == m.written + 1 <==> e.shared.lastWrite == m.clock)
            && (e.shared.written == m.written <==> e.shared.lastWrite == m.lastWrite)
            && (e.thread.Rolling? && !e.thread.attempt.ReadSecret? ==>
                  && thread.Rolling?
                  && e.thread.readAt == if thread.attempt.ReadSecret? then m.clock else thread.readAt)
  {
  }

  // ---------- how often certificates are made ----------

  function FullCount(secret: Secret): nat {
    if secret.Full() then 1 else 0
  }

  lemma MadeStep(m: Shared, t: nat, thread: Thread, o: Outcome)
    requires CanStep(m, thread) && ThreadOk(m, thread)
    ensures var m' := ThreadStep(m, t, thread, o).shared;
            m'.written + m.cleared + FullCount(m.secret) <= m.written + m'.cleared + FullCount(m'.secret)
  {
  }

  lemma {:induction false} MadeInRun(secret: Secret, nextCert: nat, actions: seq<Action>)
    requires Run(Init(secret, nextCert), actions).Some?
    ensures var m := Run(Init(secret, nextCert), actions).value.shared;
            m.written + FullCount(secret) <= m.cleared + FullCount(m.secret)
  {
    if actions != [] {
      MadeInRun(secret, nextCert, Front(actions));
      AlwaysSafe(secret, nextCert, Front(actions));
      var s := Run(Init(secret, nextCert), Front(actions)).value;
      if Last(actions).Step? {
        var t := Last(actions).thread;
        MadeStep(s.shared, t, s.threads[t], Last(actions).outcome);
      }
    }
  }

  /** However many reconcile calls race, a pair is written at most once more than one was
      cleared away, and no more often than that if a full pair was there to begin with. */
  lemma GenerationsBounded(secret: Secret, nextCert: nat, actions: seq<Action>)
    requires Run(Init(secret, nextCert), actions).Some?
    ensures var m := Run(Init(secret, nextCert), actions).value.shared;
            && m.written <= m.cleared + 1
            && (secret.Full() ==> m.written <= m.cleared)
  {
    MadeInRun(secret, nextCert, actions);
  }

  // ---------- runs, step by step ----------

  lemma RunNext(start: State, actions: seq<Action>, k: nat, s: State, s': State)
    requires k < |actions| && Run(start, actions[..k]) == Some(s)
    requires Enabled(s, actions[k]) && Apply(s, actions[k]) == s'
    ensures Run(start, actions[..k + 1]) == Some(s')
  {
    FrontOfPrefix(actions, k);
  }

  lemma {:induction false} RunConcat(start: State, first: seq<Action>, more: seq<Action>)
    requires Run(start, first).Some?
    ensures Run(start, first + more) == Run(Run(start, first).value, more)
  {
    if more == [] {
      assert first + more == first;
    } else {
      assert Front(first + more) == first + Front(more) && Last(first + more) == Last(more);
      RunConcat(start, first, Front(more));
    }
  }

  /** The watcher starts, reads, sends the deadline to itself and sets the timer. */
  const SET_TIMER: seq<Action> := [NewMaintainer, Step(0, Done), Step(0, Done), Step(0, Done)]

  lemma DeadlineSent(secret: Secret, nextCert: nat)
    ensures Run(Init(secret, nextCert), SET_TIMER[..3]) ==
            Some(State(true, [Watching], Init(secret, nextCert).shared.(clock := 4, channel := [Expiry(secret, Done)])))
  {
    var start, m, d := Init(secret, nextCert), Init(secret, nextCert).shared, Expiry(secret, Done);
    var s1 := State(true, [Starting(ReadExpiry)], m.(clock := 2));
    RunNext(start, SET_TIMER, 0, start, s1);
    var s2 := State(true, [Starting(Send(d))], m.(clock := 3));
    RunNext(start, SET_TIMER, 1, s1, s2);
    RunNext(start, SET_TIMER, 2, s2, State(true, [Watching], m.(clock := 4, channel := [d])));
  }

  lemma TimerSet(secret: Secret, nextCert: nat)
    ensures Run(Init(secret, nextCert), SET_TIMER) ==
            Some(State(true, [Watching, Timer(Expiry(secret, Done))], Init(secret, nextCert).shared.(clock := 5)))
  {
    var start, m, d := Init(secret, nextCert), Init(secret, nextCert).shared, Expiry(secret, Done);
    DeadlineSent(secret, nextCert);
    RunNext(start, SET_TIMER, 3, State(true, [Watching], m.(clock := 4, channel := [d])),
            State(true, [Watching, Timer(d)], m.(clock := 5)));
    assert SET_TIMER[..4] == SET_TIMER;
  }
}
