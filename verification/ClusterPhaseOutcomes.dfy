/** How the install phases answer to calls that fail and to objects that changed, and what each
    kind of write may touch (controllers/cluster_controller.go:113-147, 519-636, 677-728). */
module ClusterPhaseOutcomes {
  import opened Sequences
  import opened Wrappers
  import opened LocalDisks
  import opened ClusterPhases
  import opened ClusterPhaseLaws
  import opened ClusterPasses

  // ---------- what an outcome means ----------

  predicate SameObjects(w: World, w': World) {
    w'.stored == w.stored && w'.disks == w.disks && w'.claims == w.claims && w'.made == w.made
  }

  predicate Writes(a: Action) {
    a.WriteInstalled? || a.ReserveNext? || a.ClaimNext? || a.WriteStatus? || a.HandlerWrite?
  }

  /** The same write with another outcome. */
  function With(a: Action, o: Outcome): Action
    requires Writes(a)
  {
    match a
    case WriteInstalled(crds, _) => WriteInstalled(crds, o)
    case ReserveNext(_) => ReserveNext(o)
    case ClaimNext(_) => ClaimNext(o)
    case WriteStatus(_) => WriteStatus(o)
    case HandlerWrite(h, jobCount, _) => HandlerWrite(h, jobCount, o)
  }

  lemma RefusedChangesNothing(w: World, a: Action)
    requires Writes(a) && Enabled(w, With(a, Refused))
    ensures SameObjects(w, Apply(w, With(a, Refused)))
  {
  }

  lemma LostReplyTakesEffect(w: World, a: Action)
    requires Writes(a) && Enabled(w, With(a, Done))
    ensures SameObjects(Apply(w, With(a, Done)), Apply(w, With(a, LostReply)))
  {
  }

  /** A call of the worker fails in this step. */
  ghost predicate Fails(w: World, a: Action)
    requires Enabled(w, a)
  {
    match a
    case Get(ok) => !ok
    case WriteInstalled(crds, o) => !crds || o != Done
    case Components(_, ok, _) => !ok
    case List(ok, _) => !ok
    case ReserveNext(o) =>
      && w.worker.next < |w.worker.listed|
      && var d := w.worker.listed[w.worker.next];
      && (exists rule :: rule in w.worker.c.spec.rules && rule.node == d.node && d.path in rule.devices)
      && (|| o != Done || d.name !in w.disks
          || w.disks[d.name].uid != d.uid || w.disks[d.name].version != d.version)
    case ClaimNext(o) =>
      && w.worker.next < |ClaimsFor(w.worker.disks)|
      && (o != Done || ClaimsFor(w.worker.disks)[w.worker.next].name in w.claims)
    case _ => false
  }

  /** A call that fails, or meets an object that changed, ends the pass. */
  lemma FailedCallEndsPass(w: World, a: Action)
    requires Enabled(w, a) && OfWorker(a) && Fails(w, a)
    ensures Apply(w, a).worker == Idle
  {
  }

  // ---------- what a write touches ----------

  /** An edit replaces the specification, and nothing but an edit does; it makes every copy outdated. */
  lemma EditsSpecOnly(w: World, a: Action)
    requires Enabled(w, a)
    ensures var now := Apply(w, a).stored;
            if a.EditSpec? then now == w.stored.(version := w.stored.version + 1, spec := a.spec)
            else now.spec == w.stored.spec
  {
  }

  /** The stored Cluster changes only by an edit of its specification, or in its status by a write of
      a copy that is not outdated and differs. */
  lemma StatusWritesChecked(w: World, a: Action)
    requires Enabled(w, a) && !a.EditSpec? && Apply(w, a).stored != w.stored
    ensures var now := Apply(w, a).stored;
            && now == w.stored.(version := w.stored.version + 1, status := now.status)
            && now.status != w.stored.status && Writes(a)
            && (a.HandlerWrite? ==> w.handlers[a.h].version == w.stored.version)
            && (!a.HandlerWrite? ==> !w.worker.Idle? && w.worker.c.version == w.stored.version)
  {
  }

  /** An accepted write of a job handler records its count and marks the adapters as created, and
      leaves the rest of the status as it stands. */
  lemma HandlerRecords(c: Cluster, disks: map<string, Disk>, claims: set<string>, actions: seq<Action>, a: Action)
    requires Run(Init(c, disks, claims), actions).Some?
    requires var w := Run(Init(c, disks, claims), actions).value;
             a.HandlerWrite? && Enabled(w, a) && a.o != Refused && w.handlers[a.h].version == w.stored.version
    ensures var w := Run(Init(c, disks, claims), actions).value;
            Apply(w, a).stored.status == w.stored.status.(drbdCreated := true, jobNum := a.jobCount)
  {
    InvInRun(c, disks, claims, actions);
  }

  /** A handler that reads and writes with nobody in between has its count recorded. */
  lemma HandlerCounts(w: World, jobCount: nat)
    ensures var actions := [HandlerRead, HandlerWrite(|w.handlers|, jobCount, Done)];
            && Run(w, actions).Some?
            && Run(w, actions).value.stored.status == w.stored.status.(drbdCreated := true, jobNum := jobCount)
  {
    var actions := [HandlerRead, HandlerWrite(|w.handlers|, jobCount, Done)];
    RunNext(w, actions, 0, w);
    RunNext(w, actions, 1, Apply(w, HandlerRead));
    assert actions[..2] == actions;
  }

  /** After a restart the CRDs are installed again: the next pass removes their mark and ends. */
  lemma RestartReinstalls(w: World, crds: bool)
    requires w.stored.status.installed
    ensures var actions := [Restart, Get(true), WriteInstalled(crds, Done)];
            && Run(w, actions).Some? && Run(w, actions).value.worker == Idle
            && Run(w, actions).value.stored.status == w.stored.status.(installed := false)
  {
    var actions := [Restart, Get(true), WriteInstalled(crds, Done)];
    RunNext(w, actions, 0, w);
    RunNext(w, actions, 1, Apply(w, Restart));
    RunNext(w, actions, 2, Apply(Apply(w, Restart), Get(true)));
    assert actions[..3] == actions;
  }

  /** The worker gets past installing the CRDs only when that succeeded and is recorded. */
  lemma InstalledWithCRDs(w: World, a: Action)
    requires Enabled(w, a) && !w.worker.Installed? && Apply(w, a).worker.Installed?
    ensures a == WriteInstalled(true, Done) && Apply(w, a).stored.status.installed
            && Apply(w, a).worker.c == Apply(w, a).stored
  {
  }

  /** Apart from a restart, the generation is remembered only when the mark of the CRDs is removed. */
  lemma GenerationRemembered(w: World, a: Action)
    requires Enabled(w, a) && !a.Restart? && Apply(w, a).cachedGeneration != w.cachedGeneration
    ensures w.cachedGeneration == 0 && !Apply(w, a).stored.status.installed
            && Apply(w, a).cachedGeneration == w.worker.c.spec.generation
  {
  }

  /** Past its DRBD part a pass carries the mark of the adapters just if DRBD is not disabled, and no
      count if it is. */
  ghost predicate DrbdMarked(w: World) {
    w.worker.Idle? || w.worker.Read? || w.worker.Installed? ||
    (&& w.worker.c.status.drbdCreated == !w.worker.c.spec.drbdDisabled
     && (w.worker.c.spec.drbdDisabled ==> w.worker.c.status.jobNum == 0))
  }

  lemma DrbdMarkedStep(w: World, a: Action)
    requires DrbdMarked(w) && Enabled(w, a)
    ensures DrbdMarked(Apply(w, a))
  {
  }

  lemma {:induction false} DrbdMarkedInRun(c: Cluster, disks: map<string, Disk>, claims: set<string>,
                                           actions: seq<Action>)
    requires Run(Init(c, disks, claims), actions).Some?
    ensures DrbdMarked(Run(Init(c, disks, claims), actions).value)
  {
    if actions != [] {
      DrbdMarkedInRun(c, disks, claims, Front(actions));
      DrbdMarkedStep(Run(Init(c, disks, claims), Front(actions)).value, Last(actions));
    }
  }

  /** So every status the worker writes at the end of a pass carries that mark, and no count where
      DRBD is disabled. */
  lemma PassRecordsDrbd(c: Cluster, disks: map<string, Disk>, claims: set<string>, actions: seq<Action>, a: Action)
    requires Run(Init(c, disks, claims), actions).Some? && a.WriteStatus?
    requires var w := Run(Init(c, disks, claims), actions).value;
             Enabled(w, a) && a.o != Refused && w.worker.c.version == w.stored.version
    ensures var w := Run(Init(c, disks, claims), actions).value;
            && Apply(w, a).stored.status == w.worker.c.status
            && Apply(w, a).stored.status.drbdCreated == !w.worker.c.spec.drbdDisabled
            && (w.worker.c.spec.drbdDisabled ==> Apply(w, a).stored.status.jobNum == 0)
  {
    DrbdMarkedInRun(c, disks, claims, actions);
  }

  // ---------- the phase switch ----------

  /** An unset phase with a legacy state is handled just as that state in the phase itself. */
  lemma AdoptsLegacy(c: Cluster, healthy: bool)
    requires c.status.phase == Unset
    ensures AtPhase(c, healthy) == AtPhase(c.(status := c.status.(phase := c.status.legacy)), healthy)
  {
  }

  ghost predicate NeverHealthy(actions: seq<Action>) {
    forall i :: 0 <= i < |actions| ==> (actions[i].Components? ==> !actions[i].healthy)
  }

  ghost predicate StaysUnset(w: World) {
    && w.stored.status.phase == Unset && w.stored.status.legacy == Unset
    && (!w.worker.Idle? ==> w.worker.c.status.phase == Unset && w.worker.c.status.legacy == Unset)
    && (w.worker.Idle? || w.worker.Read? || w.worker.Installed? || w.worker.Writing?)
    && forall h :: 0 <= h < |w.handlers| ==>
         w.handlers[h].status.phase == Unset && w.handlers[h].status.legacy == Unset
  }

  lemma StaysUnsetStep(w: World, a: Action)
    requires StaysUnset(w) && Enabled(w, a) && (a.Components? ==> !a.healthy)
    ensures StaysUnset(Apply(w, a))
  {
  }

  /** As long as the components are not found healthy, a new Cluster stays before its first phase. */
  lemma {:induction false} PhaseWaitsForHealth(c: Cluster, disks: map<string, Disk>, claims: set<string>,
                                               actions: seq<Action>)
    requires c.status.phase == Unset && c.status.legacy == Unset && NeverHealthy(actions)
    requires Run(Init(c, disks, claims), actions).Some?
    ensures StaysUnset(Run(Init(c, disks, claims), actions).value)
    ensures Run(Init(c, disks, claims), actions).value.stored.status.phase == Unset
  {
    if actions != [] {
      PhaseWaitsForHealth(c, disks, claims, Front(actions));
      StaysUnsetStep(Run(Init(c, disks, claims), Front(actions)).value, Last(actions));
    }
  }

  // ---------- reserving touches the flag alone ----------

  /** A listed disk shows the stored object, unless that changed or is another one. */
  predicate ShowsStored(d: Disk, w: World) {
    && Id(d) in w.seen
    && (d.name in w.disks && w.disks[d.name].uid == d.uid ==>
          d.version <= w.disks[d.name].version && (d.version == w.disks[d.name].version ==> d == w.disks[d.name]))
  }

  ghost predicate ListingShows(w: World) {
    && DisksSeen(w)
    && (w.worker.Reserving? ==>
          forall i :: 0 <= i < |w.worker.listed| ==> ShowsStored(w.worker.listed[i], w))
  }

  lemma ShownStays(d: Disk, w: World, a: Action)
    requires ShowsStored(d, w) && Enabled(w, a)
    ensures ShowsStored(d, Apply(w, a))
  {
  }

  lemma ListingShowsStep(w: World, a: Action)
    requires ListingShows(w) && Enabled(w, a)
    ensures ListingShows(Apply(w, a))
  {
    if w.worker.Reserving? {
      forall i | 0 <= i < |w.worker.listed|
        ensures ShowsStored(w.worker.listed[i], Apply(w, a))
      {
        ShownStays(w.worker.listed[i], w, a);
      }
    }
  }

  lemma {:induction false} ListingShowsInRun(c: Cluster, disks: map<string, Disk>, claims: set<string>,
                                             actions: seq<Action>)
    requires Run(Init(c, disks, claims), actions).Some?
    ensures ListingShows(Run(Init(c, disks, claims), actions).value)
  {
    if actions != [] {
      ListingShowsInRun(c, disks, claims, Front(actions));
      ListingShowsStep(Run(Init(c, disks, claims), Front(actions)).value, Last(actions));
    }
  }

  /** In every run, whatever happens to the disks between listing and reserving: the worker changes a
      disk only by setting the flag of one that a rule names, and every other disk it leaves alone. */
  lemma ReservesFlagOnly(c: Cluster, disks: map<string, Disk>, claims: set<string>, actions: seq<Action>, a: Action,
                         name: string)
    requires Run(Init(c, disks, claims), actions).Some?
    requires var w := Run(Init(c, disks, claims), actions).value; Enabled(w, a) && OfWorker(a)
    ensures var w := Run(Init(c, disks, claims), actions).value;
            var now := Apply(w, a).disks;
            && (name in now <==> name in w.disks)
            && (name in now && now[name] != w.disks[name] ==>
                  && now[name] == w.disks[name].(reserved := true, version := w.disks[name].version + 1)
                  && a.ReserveNext? && w.worker.Reserving?
                  && exists rule :: rule in w.worker.c.spec.rules && rule.node == now[name].node &&
                                    now[name].path in rule.devices)
  {
    ListingShowsInRun(c, disks, claims, actions);
  }
}
