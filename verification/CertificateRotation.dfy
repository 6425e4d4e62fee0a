/** The admission certificate: one watcher, a channel of capacity one, timers, retried
    rolling updates and any number of reconcile calls, all over one shared secret
    (pkg/install/admissioncontroller/admission_controller.go). Every step is one API call,
    one channel operation or one lock operation; a timer may fire at any later step. */
module CertificateRotation {
  import opened Sequences
  import opened Wrappers

  const CHANNEL_CAPACITY: nat := 1
  /** DefaultBackoff allows five attempts, so four more after the first. */
  const RETRIES: nat := 4

  /** Key and certificate carry the identity of the generation that produced them. */
  datatype Data = Nil | Entries(key: Option<nat>, cert: Option<nat>)

  datatype Secret = Absent | Present(data: Data) {
    predicate Full() {
      Present? && data.Entries? && data.key.Some? && data.cert.Some?
    }
  }

  /** When to renew: the fallback delay, or seven days before a certificate expires. */
  datatype Deadline = Fallback | At(cert: nat)

  /** scheduleNextCertificateCheck */
  datatype Scheduler = ReadExpiry | Send(deadline: Deadline)

  /** ensureAdmissionCA */
  datatype Generation = Lock | Check | Generate(present: bool) | Write(present: bool, cert: nat)

  /** rollingUpdateCertificate */
  datatype Attempt = ReadSecret | ClearSecret | Regenerate(generation: Generation) | DeletePods

  datatype Thread =
    | Starting(scheduler: Scheduler)
    | Watching
    | Timer(deadline: Deadline)
    | Rolling(retries: nat, readAt: nat, attempt: Attempt)
    | Scheduling(scheduler: Scheduler)
    | Reconciling(generation: Generation)
    | Finished

  /** What the threads share. clock numbers the steps; lastWrite is the step that last wrote
      a key and certificate; the remaining counters record history. */
  datatype Shared = Shared(
    channel: seq<Deadline>, secret: Secret, lock: Option<nat>, clock: nat, lastWrite: nat, nextCert: nat,
    written: nat, cleared: nat, gaveUp: nat, dropped: nat, restarts: nat)

  datatype State = State(started: bool, threads: seq<Thread>, shared: Shared)

  datatype Action = NewMaintainer | Reconcile | Step(thread: nat, outcome: Outcome)

  function Init(secret: Secret, nextCert: nat): State {
    State(false, [], Shared([], secret, None, 1, 0, nextCert, 0, 0, 0, 0, 0))
  }

  /** What one step does: to the shared state, to the thread itself, and the goroutine it starts. */
  datatype Effect = Effect(shared: Shared, thread: Thread, spawned: Option<Thread>)

  predicate CanStep(m: Shared, thread: Thread) {
    match thread
    case Watching => m.channel != []
    case Rolling(_, _, Regenerate(Lock)) => m.lock == None
    case Reconciling(Lock) => m.lock == None
    case Finished => false
    case _ => true
  }

  // ---------- scheduleNextCertificateCheck ----------

  function Expiry(secret: Secret, o: Outcome): Deadline {
    if o == Done && secret.Present? && secret.data.Entries? && secret.data.cert.Some? then At(secret.data.cert.value)
    else Fallback
  }

  /** A send that finds the channel full drops the deadline. */
  function SendTo(m: Shared, d: Deadline): Shared {
    if |m.channel| < CHANNEL_CAPACITY then m.(channel := m.channel + [d])
    else m.(dropped := m.dropped + 1)
  }

  // ---------- ensureAdmissionCA ----------

  datatype Progress = Continue(next: Generation) | Failed | Completed

  predicate WriteApplies(m: Shared, g: Generation, o: Outcome) {
    g.Write? && o != Refused && (g.present <==> m.secret.Present?)
  }

  function GenerationProgress(m: Shared, g: Generation, o: Outcome): Progress {
    match g
    case Lock => Continue(Check)
    case Check =>
      if o != Done then Failed
      else if m.secret.Full() then Completed
      else Continue(Generate(m.secret.Present?))
    case Generate(present) => if o != Done then Failed else Continue(Write(present, m.nextCert))
    case Write(_, _) => if WriteApplies(m, g, o) && o == Done then Completed else Failed
  }

  /** The lock is held from the first read to the return. */
  function GenerationStep(m: Shared, t: nat, g: Generation, o: Outcome): Shared {
    var m := m.(lock := if GenerationProgress(m, g, o).Continue? then Some(t) else None);
    if g.Generate? then m.(nextCert := m.nextCert + 1)
    else if WriteApplies(m, g, o) then
      m.(secret := Present(Entries(Some(g.cert), Some(g.cert))), lastWrite := m.clock, written := m.written + 1)
    else m
  }

  // ---------- rollingUpdateCertificate ----------

  function AttemptFailed(m: Shared, retries: nat): Effect {
    if retries > 0 then Effect(m, Rolling(retries - 1, 0, ReadSecret), None)
    else Effect(m.(gaveUp := m.gaveUp + 1), Finished, None)
  }

  function RollingStep(m: Shared, t: nat, retries: nat, readAt: nat, attempt: Attempt, o: Outcome): Effect {
    match attempt
    case ReadSecret =>
      if o != Done then AttemptFailed(m, retries)
      else if m.secret.Absent? then Effect(m, Rolling(retries, m.clock, Regenerate(Lock)), None)
      else if m.secret.data.Nil? then AttemptFailed(m, retries)
      else Effect(m, Rolling(retries, m.clock, ClearSecret), None)
    case ClearSecret =>
      if o == Refused || m.secret.Absent? then AttemptFailed(m, retries)
      else
        var m := m.(secret := Present(Nil), cleared := m.cleared + 1);
        if o == Done then Effect(m, Rolling(retries, readAt, Regenerate(Lock)), None) else AttemptFailed(m, retries)
    case Regenerate(g) =>
      var m' := GenerationStep(m, t, g, o);
      (match GenerationProgress(m, g, o)
       case Continue(next) => Effect(m', Rolling(retries, readAt, Regenerate(next)), None)
       case Failed => AttemptFailed(m', retries)
       case Completed => Effect(m', Rolling(retries, readAt, DeletePods), None))
    case DeletePods =>
      if o == Refused then AttemptFailed(m, retries)
      else
        var m := m.(restarts := m.restarts + 1);
        if o == Done then Effect(m, Finished, Some(Scheduling(ReadExpiry))) else AttemptFailed(m, retries)
  }

  function ThreadStep(m: Shared, t: nat, thread: Thread, o: Outcome): Effect
    requires CanStep(m, thread)
  {
    match thread
    case Starting(ReadExpiry) => Effect(m, Starting(Send(Expiry(m.secret, o))), None)
    case Starting(Send(d)) => Effect(SendTo(m, d), Watching, None)
    case Watching => Effect(m.(channel := m.channel[1..]), Watching, Some(Timer(m.channel[0])))
    case Timer(_) => Effect(m, Rolling(RETRIES, 0, ReadSecret), None)
    case Rolling(retries, readAt, attempt) => RollingStep(m, t, retries, readAt, attempt, o)
    case Scheduling(ReadExpiry) => Effect(m, Scheduling(Send(Expiry(m.secret, o))), None)
    case Scheduling(Send(d)) => Effect(SendTo(m, d), Finished, None)
    case Reconciling(g) =>
      var p := GenerationProgress(m, g, o);
      Effect(GenerationStep(m, t, g, o), if p.Continue? then Reconciling(p.next) else Finished, None)
  }

  // ---------- interleavings ----------

  predicate Enabled(s: State, a: Action) {
    match a
    case NewMaintainer => true
    case Reconcile => s.started
    case Step(t, _) => t < |s.threads| && CanStep(s.shared, s.threads[t])
  }

  function Spawn(threads: seq<Thread>, spawned: Option<Thread>): seq<Thread> {
    if spawned.Some? then threads + [spawned.value] else threads
  }

  function Tick(m: Shared): Shared {
    m.(clock := m.clock + 1)
  }

  /** The watcher is started once, however often a maintainer is asked for. */
  function Apply(s: State, a: Action): State
    requires Enabled(s, a)
  {
    match a
    case NewMaintainer =>
      State(true, if s.started then s.threads else s.threads + [Starting(ReadExpiry)], Tick(s.shared))
    case Reconcile => State(s.started, s.threads + [Reconciling(Lock)], Tick(s.shared))
    case Step(t, o) =>
      var e := ThreadStep(s.shared, t, s.threads[t], o);
      State(s.started, Spawn(s.threads[t := e.thread], e.spawned), Tick(e.shared))
  }

  /** Where a run of actions leads, if each is enabled when taken. */
  function Run(start: State, actions: seq<Action>): Option<State> {
    if actions == [] then Some(start)
    else
      match Run(start, Front(actions))
      case None => None
      case Some(s) => if Enabled(s, Last(actions)) then Some(Apply(s, Last(actions))) else None
  }
}
