/** The install phases of a Cluster: one reconcile worker, any number of DRBD job handlers and
    outside changes, over objects written under optimistic concurrency
    (controllers/cluster_controller.go). Every step is one API call of one party. */
module ClusterPhases {
  import opened Sequences
  import opened Wrappers
  import opened LocalDisks
  import Drbd = DrbdAdapter

  /** The text of status.phase and of the legacy status.diskReserveState. */
  datatype Phase = Unset | ToReserve | Reserved | CreatedLDC | Other(text: string)

  datatype Spec = Spec(notClaim: bool, rules: seq<ReserveRule>, drbdDisabled: bool, drbd: Drbd.Call, generation: nat)

  datatype Status = Status(phase: Phase, legacy: Phase, installed: bool, drbdCreated: bool, jobNum: nat)

  datatype Cluster = Cluster(version: nat, spec: Spec, status: Status)

  /** Where the reconcile worker is, with the copy of the Cluster it carries. */
  datatype Worker =
    | Idle
    | Read(c: Cluster)
    | Installed(c: Cluster)
    | ReserveListing(c: Cluster)
    | Reserving(c: Cluster, listed: seq<Disk>, next: nat)
    | ClaimListing(c: Cluster)
    | Claiming(c: Cluster, disks: seq<Disk>, next: nat)
    | Writing(c: Cluster)

  /** A claim that was created, and the disk that gave rise to it. */
  datatype Made = Made(claim: Claim, origin: Disk)

  /** Which disk object this is: a disk deleted and created again is another one. */
  datatype Identity = Identity(name: string, uid: nat)

  function Id(d: Disk): Identity {
    Identity(d.name, d.uid)
  }

  /** settings are the package variables of the DRBD adapter, in the operator's memory.
      seen, made, kept and reservations are history: the disk objects there have been, the claims
      created, the disk objects that were listed and matched whenever a reservation succeeded,
      and how many did. */
  datatype World = World(
    stored: Cluster, disks: map<string, Disk>, claims: set<string>,
    worker: Worker, cachedGeneration: nat, handlers: seq<Cluster>, settings: Drbd.Settings,
    seen: set<Identity>, made: seq<Made>, kept: set<Identity>, reservations: nat)

  datatype Action =
    | Get(ok: bool)
    | WriteInstalled(crds: bool, o: Outcome)
    | Components(reached: bool, ok: bool, healthy: bool)
    | List(ok: bool, listed: seq<Disk>)
    | ReserveNext(o: Outcome)
    | ClaimNext(o: Outcome)
    | WriteStatus(o: Outcome)
    | Restart
    | HandlerRead
    | HandlerWrite(h: nat, jobCount: nat, o: Outcome)
    | JobDeleted
    | EditSpec(spec: Spec)
    | ChangeDisk(d: Disk)
    | RemoveDisk(name: string)
    | RemoveClaim(name: string)

  function Init(c: Cluster, disks: map<string, Disk>, claims: set<string>): World {
    World(c, disks, claims, Idle, 0, [], Drbd.UNSET,
          set name | name in disks :: Identity(name, disks[name].uid), [], {}, 0)
  }

  // ---------- writing status under a version check ----------

  predicate Accepts(stored: Cluster, c: Cluster, o: Outcome) {
    o != Refused && c.version == stored.version
  }

  /** A status write replaces the status alone; writing what is there already changes nothing. */
  function AfterWrite(stored: Cluster, c: Cluster, o: Outcome): Cluster {
    if !Accepts(stored, c, o) || c.status == stored.status then stored
    else stored.(version := stored.version + 1, status := c.status)
  }

  // ---------- the reconcile worker ----------

  /** An unset phase takes over the legacy state. */
  function Effective(s: Status): Phase {
    if s.phase.Unset? then s.legacy else s.phase
  }

  function WithPhase(c: Cluster, p: Phase): Cluster {
    c.(status := c.status.(phase := p))
  }

  /** The DRBD part of the status, then the phase switch up to its first API call. */
  function AtPhase(c: Cluster, healthy: bool): Worker {
    var s := if c.spec.drbdDisabled then c.status.(drbdCreated := false, jobNum := 0)
             else c.status.(drbdCreated := true);
    var c := c.(status := s.(phase := Effective(s)));
    match c.status.phase
    case Unset => Writing(if healthy then WithPhase(c, ToReserve) else c)
    case ToReserve => ReserveListing(c)
    case Reserved => if c.spec.notClaim then Writing(WithPhase(c, CreatedLDC)) else ClaimListing(c)
    case _ => Writing(c)
  }

  /** The configuration a step hands to the DRBD adapter: the worker, when it gets as far as the
      DRBD part and the adapters are not marked as created; the handler of a deleted job. */
  function HandsOver(w: World, a: Action): Option<Drbd.Call> {
    match a
    case Components(reached, ok, _) =>
      if w.worker.Installed? && (reached || ok) && !w.worker.c.spec.drbdDisabled && !w.worker.c.status.drbdCreated
      then Some(w.worker.c.spec.drbd) else None
    case JobDeleted =>
      if !w.stored.spec.drbdDisabled && w.stored.status.jobNum == 0 then Some(w.stored.spec.drbd) else None
    case _ => None
  }

  function SettingsAfter(w: World, a: Action): Drbd.Settings {
    match HandsOver(w, a)
    case Some(call) => Drbd.Configured(w.settings, [call])
    case None => w.settings
  }

  function InstalledStep(w: World, crds: bool, o: Outcome): World
    requires w.worker.Read?
  {
    var c := w.worker.c;
    if w.cachedGeneration == 0 && c.status.installed then
      var reset := c.(status := c.status.(installed := false));
      w.(stored := AfterWrite(w.stored, reset, o), worker := Idle,
         cachedGeneration := if Accepts(w.stored, reset, o) && o == Done then c.spec.generation else 0)
    else if !crds then w.(worker := Idle)
    else
      var done := c.(status := c.status.(installed := true));
      var stored := AfterWrite(w.stored, done, o);
      w.(stored := stored, worker := if Accepts(w.stored, done, o) && o == Done then Installed(stored) else Idle)
  }

  function ReserveStep(w: World, o: Outcome): World
    requires w.worker.Reserving?
  {
    var Reserving(c, listed, k) := w.worker;
    if k >= |listed| then
      w.(worker := Writing(WithPhase(c, Reserved)), reservations := w.reservations + 1,
         kept := w.kept + set d | d in listed && Matches(d, c.spec.rules) :: Id(d))
    else if !Matches(listed[k], c.spec.rules) then w.(worker := Reserving(c, listed, k + 1))
    else
      var d := listed[k];
      if o == Refused || !UpToDate(d, w.disks) then w.(worker := Idle)
      else
        w.(disks := w.disks[d.name := d.(reserved := true, version := d.version + 1)],
           worker := if o == Done then Reserving(c, listed, k + 1) else Idle)
  }

  function ClaimStep(w: World, o: Outcome): World
    requires w.worker.Claiming?
  {
    var Claiming(c, disks, k) := w.worker;
    var wanted := ClaimsFor(disks);
    if k >= |wanted| then w.(worker := Writing(WithPhase(c, CreatedLDC)))
    else if o == Refused || wanted[k].name in w.claims then w.(worker := Idle)
    else
      ClaimOfWitness(disks, k);
      w.(claims := w.claims + {wanted[k].name},
         made := w.made + [Made(wanted[k], disks[Witnesses(disks)[k]])],
         worker := if o == Done then Claiming(c, disks, k + 1) else Idle)
  }

  function WorkerStep(w: World, a: Action): World
    requires Enabled(w, a)
  {
    match a
    case Get(ok) => if ok then w.(worker := Read(w.stored)) else w
    case WriteInstalled(crds, o) => InstalledStep(w, crds, o)
    case Components(reached, ok, healthy) =>
      w.(worker := if ok then AtPhase(w.worker.c, healthy) else Idle, settings := SettingsAfter(w, a))
    case List(ok, listed) =>
      if !ok then w.(worker := Idle)
      else if w.worker.ReserveListing? then w.(worker := Reserving(w.worker.c, listed, 0))
      else w.(worker := Claiming(w.worker.c, Sifted(listed), 0))
    case ReserveNext(o) => ReserveStep(w, o)
    case ClaimNext(o) => ClaimStep(w, o)
    case WriteStatus(o) => w.(stored := AfterWrite(w.stored, w.worker.c, o), worker := Idle)
    case _ => w
  }

  // ---------- everybody ----------

  /** Outside, disks change, go and come back as new objects; but nobody clears a reservation on
      an object that stays, and object versions only grow. */
  ghost predicate Enabled(w: World, a: Action) {
    match a
    case Get(_) => w.worker.Idle?
    case WriteInstalled(_, _) => w.worker.Read?
    case Components(_, _, _) => w.worker.Installed?
    case List(_, listed) =>
      && (w.worker.ReserveListing? || w.worker.ClaimListing?)
      && Lists(listed, w.disks)
      && (forall name :: name in w.disks ==> exists i :: 0 <= i < |listed| && listed[i].name == name)
    case ReserveNext(_) => w.worker.Reserving?
    case ClaimNext(_) => w.worker.Claiming?
    case WriteStatus(_) => w.worker.Writing?
    case Restart => true
    case HandlerRead => true
    case HandlerWrite(h, _, _) => h < |w.handlers|
    case JobDeleted => true
    case EditSpec(_) => true
    case ChangeDisk(d) =>
      if d.name in w.disks && w.disks[d.name].uid == d.uid then
        (w.disks[d.name].reserved ==> d.reserved) && d.version > w.disks[d.name].version
      else Id(d) !in w.seen
    case RemoveDisk(name) => name in w.disks
    case RemoveClaim(_) => true
  }

  function OutsideStep(w: World, a: Action): World
    requires Enabled(w, a)
  {
    match a
    case Restart => w.(worker := Idle, cachedGeneration := 0, settings := Drbd.UNSET)
    case JobDeleted => w.(settings := SettingsAfter(w, a))
    case HandlerRead => w.(handlers := w.handlers + [w.stored])
    case HandlerWrite(h, jobCount, o) =>
      var c := w.handlers[h];
      w.(stored := AfterWrite(w.stored, c.(status := c.status.(drbdCreated := true, jobNum := jobCount)), o))
    case EditSpec(spec) => w.(stored := w.stored.(version := w.stored.version + 1, spec := spec))
    case ChangeDisk(d) => w.(disks := w.disks[d.name := d], seen := w.seen + {Id(d)})
    case RemoveDisk(name) => w.(disks := w.disks - {name})
    case RemoveClaim(name) => w.(claims := w.claims - {name})
    case _ => w
  }

  predicate OfWorker(a: Action) {
    a.Get? || a.WriteInstalled? || a.Components? || a.List? || a.ReserveNext? || a.ClaimNext? || a.WriteStatus?
  }

  function Apply(w: World, a: Action): World
    requires Enabled(w, a)
  {
    if OfWorker(a) then WorkerStep(w, a) else OutsideStep(w, a)
  }

  ghost function Run(start: World, actions: seq<Action>): Option<World> {
    if actions == [] then Some(start)
    else
      match Run(start, Front(actions))
      case None => None
      case Some(w) => if Enabled(w, Last(actions)) then Some(Apply(w, Last(actions))) else None
  }
}
