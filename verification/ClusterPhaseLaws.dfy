/** What every run of the install phases keeps, whatever writes fail and whoever interferes. */
module ClusterPhaseLaws {
  import opened Sequences
  import opened Wrappers
  import opened LocalDisks
  import opened ClusterPhases

  // ---------- the invariant ----------

  /** The only moves the phase switch makes. */
  predicate Follows(p: Phase, q: Phase) {
    || p == q
    || (p == Unset && q == ToReserve)
    || (p == ToReserve && q == Reserved)
    || (p == Reserved && q == CreatedLDC)
  }

  function Rank(p: Phase): nat {
    match p
    case Unset => 0
    case ToReserve => 1
    case Reserved => 2
    case _ => 3
  }

  /** A copy still current carries the stored DRBD count, unless it means to reset it. */
  predicate CountOk(stored: Cluster, c: Cluster) {
    && c.version <= stored.version
    && (c.version == stored.version ==>
          c.status.jobNum == stored.status.jobNum || (c.spec.drbdDisabled && c.status.jobNum == 0))
  }

  predicate SamePhases(a: Status, b: Status) {
    a.phase == b.phase && a.legacy == b.legacy
  }

  /** A copy read earlier is either outdated or shows the status stored now. */
  predicate CopyOk(stored: Cluster, c: Cluster) {
    && c.version <= stored.version
    && (c.version == stored.version ==> c.status == stored.status)
  }

  /** This disk object was there once, and if it still is, it is reserved. */
  predicate Shielded(w: World, id: Identity) {
    && id in w.seen
    && (id.name in w.disks && w.disks[id.name].uid == id.uid ==> w.disks[id.name].reserved)
  }

  ghost predicate DisksSeen(w: World) {
    forall name :: name in w.disks ==> Identity(name, w.disks[name].uid) in w.seen
  }

  ghost predicate WasMade(made: seq<Made>, claim: Claim) {
    exists i :: 0 <= i < |made| && made[i].claim == claim
  }

  ghost predicate WorkerOk(w: World) {
    match w.worker
    case Idle => true
    case Read(c) => SamePhases(c.status, w.stored.status)
    case Installed(c) => SamePhases(c.status, w.stored.status)
    case ReserveListing(c) =>
      c.status.phase == ToReserve == Effective(w.stored.status) && c.status.legacy == w.stored.status.legacy
    case Reserving(c, listed, k) =>
      && c.status.phase == ToReserve == Effective(w.stored.status) && c.status.legacy == w.stored.status.legacy
      && k <= |listed|
      && (forall i :: 0 <= i < |listed| ==> Id(listed[i]) in w.seen)
      && forall i :: 0 <= i < k && Matches(listed[i], c.spec.rules) ==> Shielded(w, Id(listed[i]))
    case ClaimListing(c) =>
      c.status.phase == Reserved == Effective(w.stored.status) && c.status.legacy == w.stored.status.legacy
      && !c.spec.notClaim
    case Claiming(c, disks, k) =>
      && c.status.phase == Reserved == Effective(w.stored.status) && c.status.legacy == w.stored.status.legacy
      && !c.spec.notClaim
      && (forall i :: 0 <= i < |disks| ==> Id(disks[i]) !in w.kept)
      && k <= |ClaimsFor(disks)|
      && forall i :: 0 <= i < k ==> WasMade(w.made, ClaimsFor(disks)[i])
    case Writing(c) =>
      Follows(Effective(w.stored.status), c.status.phase) && c.status.legacy == w.stored.status.legacy
  }

  ghost predicate Inv(w: World) {
    && WorkerOk(w)
    && (!w.worker.Idle? ==> CountOk(w.stored, w.worker.c))
    && (forall h :: 0 <= h < |w.handlers| ==> CopyOk(w.stored, w.handlers[h]))
    && DisksSeen(w)
    && (forall id :: id in w.kept ==> Shielded(w, id))
    && (forall i :: 0 <= i < |w.made| ==> Id(w.made[i].origin) !in w.kept)
    && (w.made != [] ==> Rank(Effective(w.stored.status)) >= 2)
  }

  /** Where the legacy state is empty, nothing gets past Reserved without a reservation. */
  predicate ReservedFirst(w: World) {
    w.stored.status.legacy == Unset ==>
      && (Rank(w.stored.status.phase) == 2 ==> w.reservations > 0)
      && (w.worker.Writing? && w.worker.c.status.phase == Reserved ==> w.reservations > 0)
  }

  lemma ReservedAllKeepsInv(w: World, o: Outcome)
    requires Inv(w) && w.worker.Reserving? && w.worker.next >= |w.worker.listed|
    ensures Inv(ReserveStep(w, o))
  {
    var Reserving(c, listed, k) := w.worker;
    assert w.made == [];
    forall id | id in ReserveStep(w, o).kept
      ensures Shielded(w, id)
    {
      if id !in w.kept {
        var i :| 0 <= i < |listed| && Matches(listed[i], c.spec.rules) && Id(listed[i]) == id;
      }
    }
  }

  /** Reserving one disk shields it, and lifts no other shield. */
  lemma ReserveOneKeepsInv(w: World, o: Outcome)
    requires Inv(w) && w.worker.Reserving? && w.worker.next < |w.worker.listed|
    requires UpToDate(w.worker.listed[w.worker.next], w.disks) && o != Refused
    ensures Inv(ReserveStep(w, o))
  {
    var w' := ReserveStep(w, o);
    forall id | Shielded(w, id)
      ensures Shielded(w', id)
    {
    }
  }

  lemma ReserveKeepsInv(w: World, o: Outcome)
    requires Inv(w) && w.worker.Reserving?
    ensures Inv(ReserveStep(w, o))
  {
    var Reserving(c, listed, k) := w.worker;
    if k >= |listed| {
      ReservedAllKeepsInv(w, o);
    } else if UpToDate(listed[k], w.disks) && o != Refused {
      ReserveOneKeepsInv(w, o);
    }
  }

  lemma MadeGrows(made: seq<Made>, m: Made, claim: Claim)
    ensures WasMade(made + [m], claim) <==> WasMade(made, claim) || claim == m.claim
  {
    if WasMade(made, claim) {
      var i :| 0 <= i < |made| && made[i].claim == claim;
      assert (made + [m])[i].claim == claim;
    }
    assert (made + [m])[|made|] == m;
  }

  lemma ClaimKeepsInv(w: World, o: Outcome)
    requires Inv(w) && w.worker.Claiming?
    ensures Inv(ClaimStep(w, o))
  {
    var Claiming(c, disks, k) := w.worker;
    var w' := ClaimStep(w, o);
    if w'.made != w.made {
      ClaimOfWitness(disks, k);
      forall i | 0 <= i <= k
        ensures WasMade(w'.made, ClaimsFor(disks)[i])
      {
        MadeGrows(w.made, Last(w'.made), ClaimsFor(disks)[i]);
      }
    }
  }

  lemma ListKeepsInv(w: World, ok: bool, listed: seq<Disk>)
    requires Inv(w) && Enabled(w, List(ok, listed))
    ensures Inv(Apply(w, List(ok, listed)))
  {
    var sifted := Sifted(listed);
    forall i | 0 <= i < |sifted|
      ensures Id(sifted[i]) !in w.kept
    {
      assert sifted[i] in sifted;
    }
  }

  lemma InstalledKeepsInv(w: World, crds: bool, o: Outcome)
    requires Inv(w) && w.worker.Read?
    ensures Inv(InstalledStep(w, crds, o))
  {
  }

  lemma ComponentsKeepInv(w: World, reached: bool, ok: bool, healthy: bool)
    requires Inv(w) && Enabled(w, Components(reached, ok, healthy))
    ensures Inv(Apply(w, Components(reached, ok, healthy)))
  {
  }

  lemma WriteStatusKeepsInv(w: World, o: Outcome)
    requires Inv(w) && Enabled(w, WriteStatus(o))
    ensures Inv(Apply(w, WriteStatus(o)))
  {
  }

  lemma WorkerKeepsInv(w: World, a: Action)
    requires Inv(w) && Enabled(w, a) && OfWorker(a)
    ensures Inv(Apply(w, a))
  {
    match a {
      case ReserveNext(o) => ReserveKeepsInv(w, o);
      case ClaimNext(o) => ClaimKeepsInv(w, o);
      case List(ok, listed) => ListKeepsInv(w, ok, listed);
      case WriteInstalled(crds, o) => InstalledKeepsInv(w, crds, o);
      case Components(reached, ok, healthy) => ComponentsKeepInv(w, reached, ok, healthy);
      case WriteStatus(o) => WriteStatusKeepsInv(w, o);
      case Get(_) =>
    }
  }

  lemma HandlerKeepsInv(w: World, h: nat, jobCount: nat, o: Outcome)
    requires Inv(w) && h < |w.handlers|
    ensures Inv(Apply(w, HandlerWrite(h, jobCount, o)))
  {
  }

  lemma ChangeKeepsInv(w: World, d: Disk)
    requires Inv(w) && Enabled(w, ChangeDisk(d))
    ensures Inv(Apply(w, ChangeDisk(d)))
  {
    var w' := Apply(w, ChangeDisk(d));
    forall id | Shielded(w, id)
      ensures Shielded(w', id)
    {
    }
  }

  lemma RemoveKeepsInv(w: World, name: string)
    requires Inv(w) && Enabled(w, RemoveDisk(name))
    ensures Inv(Apply(w, RemoveDisk(name)))
  {
    var w' := Apply(w, RemoveDisk(name));
    forall id | Shielded(w, id)
      ensures Shielded(w', id)
    {
    }
  }

  lemma EditKeepsInv(w: World, spec: Spec)
    requires Inv(w)
    ensures Inv(Apply(w, EditSpec(spec)))
  {
  }

  lemma OutsideKeepsInv(w: World, a: Action)
    requires Inv(w) && Enabled(w, a) && !OfWorker(a)
    ensures Inv(Apply(w, a))
  {
    match a {
      case HandlerWrite(h, jobCount, o) => HandlerKeepsInv(w, h, jobCount, o);
      case ChangeDisk(d) => ChangeKeepsInv(w, d);
      case RemoveDisk(name) => RemoveKeepsInv(w, name);
      case EditSpec(spec) => EditKeepsInv(w, spec);
      case _ =>
    }
  }

  lemma {:induction false} InvInRun(c: Cluster, disks: map<string, Disk>, claims: set<string>, actions: seq<Action>)
    requires Run(Init(c, disks, claims), actions).Some?
    ensures Inv(Run(Init(c, disks, claims), actions).value)
  {
    if actions != [] {
      InvInRun(c, disks, claims, Front(actions));
      var w, a := Run(Init(c, disks, claims), Front(actions)).value, Last(actions);
      if OfWorker(a) {
        WorkerKeepsInv(w, a);
      } else {
        OutsideKeepsInv(w, a);
      }
    }
  }

  // ---------- phases only rise ----------

  predicate PhaseRises(was: Status, now: Status) {
    && (now.phase == was.phase || Rank(now.phase) > Rank(was.phase))
    && Follows(Effective(was), Effective(now))
    && now.legacy == was.legacy
  }

  lemma OutsidePhaseStep(w: World, a: Action)
    requires Inv(w) && Enabled(w, a) && !OfWorker(a)
    ensures PhaseRises(w.stored.status, Apply(w, a).stored.status)
  {
  }

  /** One step of anybody leaves the stored phase or raises it, and the legacy state stays. */
  lemma PhaseStep(w: World, a: Action)
    requires Inv(w) && Enabled(w, a)
    ensures PhaseRises(w.stored.status, Apply(w, a).stored.status)
  {
    if !OfWorker(a) {
      OutsidePhaseStep(w, a);
    }
  }

  /** How often a run changes the stored phase. */
  ghost function PhaseChanges(start: World, actions: seq<Action>): nat {
    if actions == [] then 0
    else
      match Run(start, Front(actions))
      case None => 0
      case Some(w) =>
        PhaseChanges(start, Front(actions)) +
        if Enabled(w, Last(actions)) && Apply(w, Last(actions)).stored.status.phase != w.stored.status.phase then 1
        else 0
  }

  /** Over any run, with failing, lost or conflicting writes and any handlers, the stored phase
      only rises, and changes at most three times. */
  lemma {:induction false} PhaseOnlyRises(c: Cluster, disks: map<string, Disk>, claims: set<string>,
                                          actions: seq<Action>)
    requires Run(Init(c, disks, claims), actions).Some?
    ensures var start := Init(c, disks, claims);
            var p := Run(start, actions).value.stored.status.phase;
            && Rank(c.status.phase) + PhaseChanges(start, actions) <= Rank(p) <= 3
            && (PhaseChanges(start, actions) == 0 ==> p == c.status.phase)
  {
    if actions != [] {
      var start := Init(c, disks, claims);
      PhaseOnlyRises(c, disks, claims, Front(actions));
      InvInRun(c, disks, claims, Front(actions));
      PhaseStep(Run(start, Front(actions)).value, Last(actions));
    }
  }

  // ---------- claims ----------

  /** A claim is only ever created while the Cluster stands at Reserved, by a worker whose copy
      asks for claiming, and from a disk no successful reservation had matched. */
  lemma ClaimStepWhere(w: World, a: Action)
    requires Inv(w) && Enabled(w, a) && Apply(w, a).made != w.made
    ensures && Effective(w.stored.status) == Reserved
            && w.worker.Claiming? && !w.worker.c.spec.notClaim
            && |Apply(w, a).made| == |w.made| + 1 && w.made <= Apply(w, a).made
            && Last(Apply(w, a).made).origin in w.worker.disks
            && Id(Last(Apply(w, a).made).origin) !in w.kept
            && Last(Apply(w, a).made).claim == ClaimOf(Last(Apply(w, a).made).origin)
            && Last(Apply(w, a).made).claim.name !in w.claims
  {
    ClaimOfWitness(w.worker.disks, w.worker.next);
  }

  lemma {:induction false} ClaimsOnlyWhenReserved(c: Cluster, disks: map<string, Disk>, claims: set<string>,
                                                  actions: seq<Action>, a: Action)
    requires Run(Init(c, disks, claims), actions).Some?
    requires var w := Run(Init(c, disks, claims), actions).value; Enabled(w, a) && Apply(w, a).made != w.made
    ensures var w := Run(Init(c, disks, claims), actions).value;
            Effective(w.stored.status) == Reserved && !w.worker.c.spec.notClaim
  {
    InvInRun(c, disks, claims, actions);
    ClaimStepWhere(Run(Init(c, disks, claims), actions).value, a);
  }

  /** The worker gets past claiming only when every claim of its listing has been created. */
  lemma {:induction false} ClaimingCompletes(c: Cluster, disks: map<string, Disk>, claims: set<string>,
                                             actions: seq<Action>, a: Action)
    requires Run(Init(c, disks, claims), actions).Some?
    requires var w := Run(Init(c, disks, claims), actions).value;
             Enabled(w, a) && w.worker.Claiming? && Apply(w, a).worker.Writing?
    ensures var w := Run(Init(c, disks, claims), actions).value;
            && Apply(w, a).worker.c.status.phase == CreatedLDC
            && forall claim :: claim in ClaimsFor(w.worker.disks) ==> WasMade(w.made, claim)
  {
    InvInRun(c, disks, claims, actions);
  }

  /** k steps of the claim pass, all successful and with nobody in between. */
  function ClaimSteps(k: nat): seq<Action> {
    if k == 0 then [] else ClaimSteps(k - 1) + [ClaimNext(Done)]
  }

  /** Where those k steps lead. */
  ghost predicate ClaimedTo(w: World, k: nat, end: Option<World>)
    requires w.worker.Claiming?
  {
    var wanted := ClaimsFor(w.worker.disks);
    if k <= |wanted| && AllNew(wanted[..k], w.claims) then
      && end.Some? && end.value.worker == Claiming(w.worker.c, w.worker.disks, k)
      && end.value.claims == w.claims + ClaimNames(wanted[..k])
      && end.value.stored == w.stored && end.value.disks == w.disks
    else if k == |wanted| + 1 && AllNew(wanted, w.claims) then
      && end.Some? && end.value.worker == Writing(WithPhase(w.worker.c, CreatedLDC))
      && end.value.stored == w.stored && end.value.disks == w.disks
    else end.Some? ==> end.value.worker.Idle?
  }

  lemma ClaimOnce(w: World, k: nat, now: World)
    requires w.worker.Claiming? && ClaimedTo(w, k, Some(now)) && now.worker.Claiming?
    ensures ClaimedTo(w, k + 1, Some(ClaimStep(now, Done)))
  {
    var wanted := ClaimsFor(w.worker.disks);
    if k < |wanted| {
      AllNewNext(wanted, w.claims, k);
    } else {
      assert wanted[..k] == wanted;
    }
  }

  /** A pass that has ended takes no further step. */
  lemma NotClaimedTo(w: World, k: nat, now: Option<World>)
    requires w.worker.Claiming? && k > 0 && ClaimedTo(w, k - 1, now)
    requires now.Some? ==> !now.value.worker.Claiming?
    ensures ClaimedTo(w, k, None)
  {
    var wanted := ClaimsFor(w.worker.disks);
    if k <= |wanted| {
      AllNewNext(wanted, w.claims, k - 1);
    } else {
      assert wanted[..|wanted|] == wanted;
    }
  }

  lemma ClaimsNext(w: World, k: nat)
    ensures Run(w, ClaimSteps(k + 1)) ==
            if Run(w, ClaimSteps(k)).Some? && Run(w, ClaimSteps(k)).value.worker.Claiming?
            then Some(ClaimStep(Run(w, ClaimSteps(k)).value, Done)) else None
  {
    FrontOfSnoc(ClaimSteps(k), ClaimNext(Done));
  }

  lemma {:induction false} ClaimPrefix(w: World, k: nat)
    requires w.worker.Claiming? && w.worker.next == 0
    ensures ClaimedTo(w, k, Run(w, ClaimSteps(k)))
  {
    if k == 0 {
      assert ClaimsFor(w.worker.disks)[..0] == [];
    } else {
      ClaimPrefix(w, k - 1);
      ClaimsNext(w, k - 1);
      var now := Run(w, ClaimSteps(k - 1));
      if now.Some? && now.value.worker.Claiming? {
        ClaimOnce(w, k - 1, now.value);
      } else {
        NotClaimedTo(w, k, now);
      }
    }
  }

  /** Left alone and with every call succeeding, a claim pass over its listing completes exactly
      when no claim of a wanted name is there and the wanted names differ. */
  lemma ClaimPassExactly(w: World)
    requires w.worker.Claiming? && w.worker.next == 0
    ensures (exists k :: Run(w, ClaimSteps(k)).Some? &&
                         Run(w, ClaimSteps(k)).value.worker == Writing(WithPhase(w.worker.c, CreatedLDC)))
            <==> AllNew(ClaimsFor(w.worker.disks), w.claims)
  {
    var n := |ClaimsFor(w.worker.disks)|;
    if AllNew(ClaimsFor(w.worker.disks), w.claims) {
      ClaimPrefix(w, n + 1);
      assert Run(w, ClaimSteps(n + 1)).Some?;
    }
    if k :| Run(w, ClaimSteps(k)).Some? &&
            Run(w, ClaimSteps(k)).value.worker == Writing(WithPhase(w.worker.c, CreatedLDC)) {
      ClaimPrefix(w, k);
    }
  }

  // ---------- the DRBD count ----------

  /** Nobody loses the recorded count: in any run a step changes it only if a handler records
      its own count, or the worker resets it for a Cluster with DRBD disabled. */
  lemma CountNeverLost(c: Cluster, disks: map<string, Disk>, claims: set<string>, actions: seq<Action>, a: Action)
    requires Run(Init(c, disks, claims), actions).Some?
    requires Enabled(Run(Init(c, disks, claims), actions).value, a)
    ensures var w := Run(Init(c, disks, claims), actions).value;
            var was, now := w.stored.status.jobNum, Apply(w, a).stored.status.jobNum;
            || now == was
            || (a.HandlerWrite? && now == a.jobCount)
            || (OfWorker(a) && !w.worker.Idle? && w.worker.c.spec.drbdDisabled && now == 0)
  {
    InvInRun(c, disks, claims, actions);
  }

  /** Step i of the run is a handler's write that the server accepts. */
  ghost predicate Records(start: World, actions: seq<Action>, i: nat) {
    && i < |actions| && actions[i].HandlerWrite?
    && match Run(start, actions[..i])
       case None => false
       case Some(w) => actions[i].h < |w.handlers| && Accepts(w.stored, w.handlers[actions[i].h], actions[i].o)
  }

  /** Where a stored count comes from: it is the one found at the start, a reset to zero, or one
      that a handler recorded in the run. */
  ghost predicate CountFrom(start: World, actions: seq<Action>, jobNum: nat) {
    || jobNum == start.stored.status.jobNum || jobNum == 0
    || exists i: nat :: Records(start, actions, i) && actions[i].jobCount == jobNum
  }

  lemma CountFromLater(start: World, actions: seq<Action>, jobNum: nat)
    requires actions != [] && CountFrom(start, Front(actions), jobNum)
    ensures CountFrom(start, actions, jobNum)
  {
    if i: nat :| Records(start, Front(actions), i) && Front(actions)[i].jobCount == jobNum {
      assert Front(actions)[..i] == actions[..i];
      assert Records(start, actions, i);
    }
  }

  lemma RefusedChangesNothing(w: World, a: Action)
    requires a.HandlerWrite? && Enabled(w, a)
    ensures Accepts(w.stored, w.handlers[a.h], a.o) || Apply(w, a).stored == w.stored
  {
  }

  lemma {:induction false} CountFromHandlers(c: Cluster, disks: map<string, Disk>, claims: set<string>,
                                             actions: seq<Action>)
    requires Run(Init(c, disks, claims), actions).Some?
    ensures CountFrom(Init(c, disks, claims), actions, Run(Init(c, disks, claims), actions).value.stored.status.jobNum)
  {
    if actions != [] {
      var start, before, a := Init(c, disks, claims), Front(actions), Last(actions);
      var w := Run(start, before).value;
      CountFromHandlers(c, disks, claims, before);
      CountNeverLost(c, disks, claims, before, a);
      if Apply(w, a).stored.status.jobNum == w.stored.status.jobNum {
        CountFromLater(start, actions, w.stored.status.jobNum);
      } else if a.HandlerWrite? {
        RefusedChangesNothing(w, a);
        assert Records(start, actions, |before|);
      }
    }
  }

  /** NotClaimDisk is set, wherever a copy of the specification is about to be acted on. */
  ghost predicate NotClaiming(w: World) {
    && w.stored.spec.notClaim && w.made == []
    && !w.worker.ClaimListing? && !w.worker.Claiming?
    && (w.worker.Read? || w.worker.Installed? ==> w.worker.c.spec.notClaim)
  }

  lemma NotClaimingStep(w: World, a: Action)
    requires NotClaiming(w) && Enabled(w, a) && (a.EditSpec? ==> a.spec.notClaim)
    ensures NotClaiming(Apply(w, a))
  {
  }

  /** While NotClaimDisk stays set, no claim is ever created. */
  lemma {:induction false} NoClaimsWhileNotClaimed(c: Cluster, disks: map<string, Disk>, claims: set<string>,
                                                   actions: seq<Action>)
    requires c.spec.notClaim && Run(Init(c, disks, claims), actions).Some?
    requires forall i :: 0 <= i < |actions| ==> (actions[i].EditSpec? ==> actions[i].spec.notClaim)
    ensures NotClaiming(Run(Init(c, disks, claims), actions).value)
    ensures Run(Init(c, disks, claims), actions).value.made == []
  {
    if actions != [] {
      NoClaimsWhileNotClaimed(c, disks, claims, Front(actions));
      NotClaimingStep(Run(Init(c, disks, claims), Front(actions)).value, Last(actions));
    }
  }

  lemma ReservedFirstStep(w: World, a: Action)
    requires Inv(w) && ReservedFirst(w) && Enabled(w, a)
    ensures ReservedFirst(Apply(w, a))
  {
  }

  /** From a new Cluster without legacy state: no disk that was listed and matched when a
      reservation succeeded gives rise to a claim, before or after, through any retries and
      restarts; and claims exist only once a reservation has succeeded. */
  lemma {:induction false} ReservationRespected(c: Cluster, disks: map<string, Disk>, claims: set<string>,
                                                actions: seq<Action>)
    requires c.status.phase == Unset && c.status.legacy == Unset
    requires Run(Init(c, disks, claims), actions).Some?
    ensures var w := Run(Init(c, disks, claims), actions).value;
            && (forall i :: 0 <= i < |w.made| ==> Id(w.made[i].origin) !in w.kept)
            && (w.made != [] ==> w.reservations > 0)
            && ReservedFirst(w) && w.stored.status.legacy == Unset
  {
    InvInRun(c, disks, claims, actions);
    if actions != [] {
      var before := Run(Init(c, disks, claims), Front(actions)).value;
      ReservationRespected(c, disks, claims, Front(actions));
      InvInRun(c, disks, claims, Front(actions));
      ReservedFirstStep(before, Last(actions));
      PhaseStep(before, Last(actions));
      if Apply(before, Last(actions)).made != before.made {
        ClaimStepWhere(before, Last(actions));
      }
    }
  }
}
