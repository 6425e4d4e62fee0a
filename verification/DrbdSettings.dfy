/** The settings of the DRBD adapter over whole runs of the operator: they live in memory, a
    configuration reaches them only while no adapters are marked as created or when a job is
    deleted, and a restart forgets them (pkg/install/drbd/drbd_adapter.go:60-100,
    controllers/cluster_controller.go:519-541, 729-764). */
module DrbdSettings {
  import opened Sequences
  import opened Wrappers
  import opened LocalDisks
  import opened ClusterPhases
  import opened ClusterPasses
  import opened DrbdAdapter
  import opened DrbdQuorum

  // ---------- what the settings are ----------

  /** The configurations handed over since the operator last started. */
  ghost function Handed(start: World, actions: seq<Action>): seq<Call> {
    if actions == [] then []
    else
      match Run(start, Front(actions))
      case None => []
      case Some(w) =>
        if Last(actions).Restart? then []
        else
          match HandsOver(w, Last(actions))
          case Some(call) => Handed(start, Front(actions)) + [call]
          case None => Handed(start, Front(actions))
  }

  lemma SettingsStep(w: World, a: Action)
    requires Enabled(w, a)
    ensures Apply(w, a).settings == if a.Restart? then UNSET else SettingsAfter(w, a)
  {
  }

  lemma ConfiguredNext(s: Settings, calls: seq<Call>, call: Call)
    ensures Configured(s, calls + [call]) == Configured(Configured(s, calls), [call])
    ensures s.deployOnMaster ==> Configured(s, [call]).deployOnMaster
  {
    FrontOfSnoc(calls, call);
    assert Front([call]) == [];
  }

  lemma {:induction false} SettingsAreHanded(c: Cluster, disks: map<string, Disk>, claims: set<string>,
                                             actions: seq<Action>)
    requires Run(Init(c, disks, claims), actions).Some?
    ensures Run(Init(c, disks, claims), actions).value.settings ==
            Configured(UNSET, Handed(Init(c, disks, claims), actions))
  {
    if actions != [] {
      var start, a := Init(c, disks, claims), Last(actions);
      var w := Run(start, Front(actions)).value;
      SettingsAreHanded(c, disks, claims, Front(actions));
      SettingsStep(w, a);
      if HandsOver(w, a).Some? {
        ConfiguredNext(UNSET, Handed(start, Front(actions)), HandsOver(w, a).value);
      }
    }
  }

  /** In every run, masters take part exactly when some configuration handed over since the last
      restart asked for it, and jobs go to the namespace of the last one handed over since. */
  lemma {:induction false} SettingsHistory(c: Cluster, disks: map<string, Disk>, claims: set<string>,
                                           actions: seq<Action>)
    requires Run(Init(c, disks, claims), actions).Some?
    ensures var s := Run(Init(c, disks, claims), actions).value.settings;
            var handed := Handed(Init(c, disks, claims), actions);
            && (s.deployOnMaster <==> SomeAsks(handed))
            && s.namespace == LastNamespace("", handed)
  {
    SettingsAreHanded(c, disks, claims, actions);
    CallHistory(UNSET, Handed(Init(c, disks, claims), actions));
  }

  // ---------- when a configuration is in force ----------

  predicate InForce(s: Settings, call: Call) {
    s == Settings(call.Asks(), call.targetNamespace)
  }

  /** The configuration the Cluster has now is in force exactly when, of those handed over since the
      last restart, some one asked for masters just if it does, and the last names its namespace. */
  lemma {:induction false} InForceExactly(c: Cluster, disks: map<string, Disk>, claims: set<string>,
                                          actions: seq<Action>)
    requires Run(Init(c, disks, claims), actions).Some?
    ensures var w, handed := Run(Init(c, disks, claims), actions).value, Handed(Init(c, disks, claims), actions);
            InForce(w.settings, w.stored.spec.drbd) <==>
            && (SomeAsks(handed) <==> w.stored.spec.drbd.Asks())
            && LastNamespace("", handed) == w.stored.spec.drbd.targetNamespace
  {
    SettingsHistory(c, disks, claims, actions);
  }

  // ---------- when an edit takes effect ----------

  lemma PassHandsOver(w: World)
    requires w.worker.Idle? && !FirstPass(w)
    ensures Run(w, PASS).Some?
    ensures Run(w, PASS).value.settings ==
            if w.stored.spec.drbdDisabled || w.stored.status.drbdCreated then w.settings
            else Configured(w.settings, [w.stored.spec.drbd])
  {
    InstallPasses(w);
    var w' := Run(w, PASS[..2]).value;
    RunNext(w, PASS, 2, w');
    SettingsStep(w', PASS[2]);
    assert PASS[..3] == PASS;
  }

  /** The Cluster is edited, and the worker goes through its next pass. */
  function EditAndPass(w: World, spec: Spec): seq<Action> {
    [EditSpec(spec)] + (ResetCRDs(w) + PASS)
  }

  lemma EditPasses(w: World, spec: Spec)
    requires w.worker.Idle?
    ensures Run(w, EditAndPass(w, spec)).Some?
    ensures Run(w, EditAndPass(w, spec)).value.settings ==
            if spec.drbdDisabled || w.stored.status.drbdCreated then w.settings
            else Configured(w.settings, [spec.drbd])
  {
    var edited := Apply(w, EditSpec(spec));
    assert Front([EditSpec(spec)]) == [];
    assert Run(w, [EditSpec(spec)]) == Some(edited);
    RunConcat(w, [EditSpec(spec)], ResetCRDs(w) + PASS);
    assert ResetCRDs(edited) == ResetCRDs(w);
    ResetPasses(edited);
    RunConcat(edited, ResetCRDs(w), PASS);
    PassHandsOver(Run(edited, ResetCRDs(w)).value);
  }

  /** A pass that fails after its DRBD part has handed the configuration over all the same; one that
      fails before it has not. */
  lemma FailedPassHandsOver(w: World, healthy: bool)
    requires w.worker.Installed?
    ensures Apply(w, Components(true, false, healthy)).settings == Apply(w, Components(true, true, healthy)).settings
    ensures Apply(w, Components(false, false, healthy)).settings == w.settings
  {
  }

  /** Where DRBD is not disabled and no count is recorded, the deletion of a job hands the stored
      configuration over; elsewhere it changes nothing. */
  lemma DeletionHandsOver(w: World)
    requires w.stored.spec.drbd.spec.Some?
    ensures var s := Apply(w, JobDeleted).settings;
            if w.stored.spec.drbdDisabled || w.stored.status.jobNum > 0 then s == w.settings
            else
              && s.namespace == w.stored.spec.drbd.targetNamespace
              && (s.deployOnMaster <==>
                    w.settings.deployOnMaster || w.stored.spec.drbd.spec.value.deployOnMaster == "yes")
  {
    var call := w.stored.spec.drbd;
    assert Front([call]) == [] && Last([call]) == call;
    assert Configured(w.settings, [call]) == Settings(w.settings.deployOnMaster || call.Asks(), call.targetNamespace);
  }

  /** However the Cluster is edited, as long as it keeps DRBD and a configuration for it, that
      configuration is in force after the next pass. */
  ghost predicate EveryEditTakesEffect(w: World) {
    forall spec: Spec :: !spec.drbdDisabled && spec.drbd.spec.Some? ==>
                     && Run(w, EditAndPass(w, spec)).Some?
                     && InForce(Run(w, EditAndPass(w, spec)).value.settings, spec.drbd)
  }

  /** This is so, between two passes of any run, exactly when the adapters are not marked as created
      and no configuration handed over since the last restart asked for masters. */
  lemma {:induction false} EditsTakeEffectExactly(c: Cluster, disks: map<string, Disk>, claims: set<string>,
                                                  actions: seq<Action>)
    requires Run(Init(c, disks, claims), actions).Some?
    requires Run(Init(c, disks, claims), actions).value.worker.Idle?
    ensures var w := Run(Init(c, disks, claims), actions).value;
            EveryEditTakesEffect(w) <==>
            !w.stored.status.drbdCreated && !SomeAsks(Handed(Init(c, disks, claims), actions))
  {
    var w := Run(Init(c, disks, claims), actions).value;
    SettingsHistory(c, disks, claims, actions);
    if !w.stored.status.drbdCreated && !w.settings.deployOnMaster {
      forall spec: Spec | !spec.drbdDisabled && spec.drbd.spec.Some?
        ensures Run(w, EditAndPass(w, spec)).Some? && InForce(Run(w, EditAndPass(w, spec)).value.settings, spec.drbd)
      {
        EditPasses(w, spec);
      }
    } else {
      var other := if w.settings.namespace == "" then "other" else "";
      var spec := w.stored.spec.(drbdDisabled := false, drbd := Call(Some(DrbdSpec("no")), other));
      EditPasses(w, spec);
    }
  }

  // ---------- counting between restarts ----------

  ghost predicate NoRestart(actions: seq<Action>) {
    forall i :: 0 <= i < |actions| ==> !actions[i].Restart?
  }

  lemma {:induction false} MastersStay(w: World, more: seq<Action>)
    requires NoRestart(more) && Run(w, more).Some? && w.settings.deployOnMaster
    ensures Run(w, more).value.settings.deployOnMaster
  {
    if more != [] {
      var before := Run(w, Front(more)).value;
      MastersStay(w, Front(more));
      SettingsStep(before, Last(more));
      if HandsOver(before, Last(more)).Some? {
        ConfiguredNext(before.settings, [], HandsOver(before, Last(more)).value);
      }
    }
  }

  lemma {:induction false} EligibleWidens(nodes: seq<Node>, s: Settings, wider: Settings,
                                         distros: string -> Option<string>)
    requires s.deployOnMaster ==> wider.deployOnMaster
    ensures Elements(NodeNames(Eligible(nodes, s, distros))) <= Elements(NodeNames(Eligible(nodes, wider, distros)))
  {
    if nodes != [] {
      EligibleWidens(Front(nodes), s, wider, distros);
      EligibleSnoc(nodes, s, distros);
      EligibleSnoc(nodes, wider, distros);
    }
  }

  lemma EligibleSnoc(nodes: seq<Node>, s: Settings, distros: string -> Option<string>)
    requires nodes != []
    ensures Elements(NodeNames(Eligible(nodes, s, distros))) ==
            Elements(NodeNames(Eligible(Front(nodes), s, distros))) +
            if GetDistro(Last(nodes), s, distros).Some? then {Last(nodes).name} else {}
  {
    FrontOfSnoc(Eligible(Front(nodes), s, distros), Last(nodes));
  }

  /** As long as the operator is not restarted and the nodes are the same, whatever else happens after
      the jobs were made: a count is recorded only when every node that got a job is done. */
  lemma NeverEarlyBetweenRestarts(w: World, more: seq<Action>, nodes: seq<Node>, distros: string -> Option<string>,
                                  stamp: string, owners: seq<string>, jobs: seq<Job>)
    requires NoRestart(more) && Run(w, more).Some? && Distinct(NodeNames(nodes))
    requires Evolved(jobs, Census(nodes, w.settings, distros).Jobs(stamp, owners))
    requires Census(nodes, Run(w, more).value.settings, distros).Recorded(jobs).Some?
    ensures EveryNodeDone(jobs, Census(nodes, w.settings, distros).Needing())
  {
    var made, now := Census(nodes, w.settings, distros), Census(nodes, Run(w, more).value.settings, distros);
    if w.settings.deployOnMaster {
      MastersStay(w, more);
    }
    EligibleWidens(nodes, made.settings, now.settings, distros);
    SubsetCount(made.Names(), now.Names());
    NeverEarlyExactly(made, now, stamp, owners);
  }

  /** Once the operator has been restarted, and before a configuration is handed over again, the
      count is right for every pattern of completions exactly when no node is left to wait for, or
      no master was among those that got a job and the namespaces agree. */
  lemma QuorumAfterRestartExactly(nodes: seq<Node>, s: Settings, distros: string -> Option<string>,
                                  stamp: string, owners: seq<string>)
    requires Distinct(NodeNames(nodes))
    ensures var made, now := Census(nodes, s, distros), Census(nodes, UNSET, distros);
            (forall jobs :: Evolved(jobs, made.Jobs(stamp, owners)) ==> RightNow(jobs, now)) <==>
            now.Names() == {} || (s.namespace == COUNTED_NAMESPACE && now.Names() == made.Names())
  {
    var made, now := Census(nodes, s, distros), Census(nodes, UNSET, distros);
    QuorumExactly(made, now, stamp, owners);
    EligibleWidens(nodes, UNSET, s, distros);
    SubsetCount(now.Names(), made.Names());
  }

  // ---------- a restart counts early ----------

  /** The first pass marks the adapters as created; then the operator is restarted. */
  const FORGET: seq<Action> := PASS + [WriteStatus(Done), Restart]

  /** The configuration of a new Cluster that asks for masters is in force after the first pass, and
      forgotten after a restart, with the Cluster unedited and its adapters marked as created. */
  lemma RestartForgets(c: Cluster, disks: map<string, Disk>, claims: set<string>)
    requires c.status == Status(Unset, Unset, false, false, 0) && !c.spec.drbdDisabled
    requires c.spec.drbd.spec.Some? && c.spec.drbd.Asks()
    ensures var start := Init(c, disks, claims);
            && Run(start, PASS).Some? && InForce(Run(start, PASS).value.settings, c.spec.drbd)
            && Run(start, FORGET).Some? && Run(start, FORGET).value.settings == UNSET
            && Run(start, FORGET).value.stored.status.drbdCreated && Run(start, FORGET).value.stored.spec == c.spec
  {
    var start := Init(c, disks, claims);
    PassHandsOver(start);
    InstallPasses(start);
    var installed := Run(start, PASS[..2]).value;
    RunNext(start, PASS, 2, installed);
    assert PASS[..3] == PASS;
    RunConcat(start, PASS, [WriteStatus(Done), Restart]);
    var passed, rest := Run(start, PASS).value, [WriteStatus(Done), Restart];
    RunNext(passed, rest, 0, passed);
    RunNext(passed, rest, 1, Apply(passed, rest[0]));
    assert rest[..2] == rest;
  }

  /** A master m and two nodes a and b, all of a supported system. */
  function ThreeNodes(image: string): seq<Node> {
    [Node("m", true, false, image), Node("a", false, false, image), Node("b", false, false, image)]
  }

  lemma OneMore(nodes: seq<Node>, n: Node, s: Settings, distros: string -> Option<string>)
    requires Distinct(NodeNames(nodes)) && n.name !in NodeNames(nodes)
    ensures Distinct(NodeNames(nodes + [n])) && NodeNames(nodes + [n]) == NodeNames(nodes) + [n.name]
    ensures Census(nodes + [n], s, distros).Names() ==
            Census(nodes, s, distros).Names() + if GetDistro(n, s, distros).Some? then {n.name} else {}
  {
    FrontOfSnoc(nodes, n);
    DistinctSnoc(NodeNames(nodes), n.name);
    EligibleSnoc(nodes + [n], s, distros);
  }

  lemma MasterNeeding(image: string, s: Settings, distros: string -> Option<string>)
    requires distros(image).Some?
    ensures var m := Node("m", true, false, image);
            && Distinct(NodeNames([m])) && NodeNames([m]) == ["m"]
            && Census([m], s, distros).Names() == if s.deployOnMaster then {"m"} else {}
  {
    OneMore([], Node("m", true, false, image), s, distros);
    assert [] + [Node("m", true, false, image)] == [Node("m", true, false, image)];
  }

  lemma TwoNeeding(image: string, s: Settings, distros: string -> Option<string>)
    requires distros(image).Some?
    ensures var nodes := ThreeNodes(image)[..2];
            && Distinct(NodeNames(nodes)) && NodeNames(nodes) == ["m", "a"]
            && Census(nodes, s, distros).Names() == if s.deployOnMaster then {"m", "a"} else {"a"}
  {
    var m, a := Node("m", true, false, image), Node("a", false, false, image);
    MasterNeeding(image, s, distros);
    OneMore([m], a, s, distros);
    assert ThreeNodes(image)[..2] == [m] + [a];
  }

  lemma ThreeNeeding(image: string, s: Settings, distros: string -> Option<string>)
    requires distros(image).Some?
    ensures var c := Census(ThreeNodes(image), s, distros);
            c.Proper() && c.Names() == if s.deployOnMaster then {"m", "a", "b"} else {"a", "b"}
  {
    var b := Node("b", false, false, image);
    TwoNeeding(image, s, distros);
    OneMore(ThreeNodes(image)[..2], b, s, distros);
    assert ThreeNodes(image) == ThreeNodes(image)[..2] + [b];
  }

  lemma AllBut(made: Census, stamp: string, owners: seq<string>, x: string, rest: set<string>)
    requires made.Proper() && made.Names() == rest + {x} && x !in rest
    requires made.settings.namespace == COUNTED_NAMESPACE
    ensures var jobs := FinishExcept(made.Jobs(stamp, owners), {x});
            DoneNames(jobs) == rest && |Counted(jobs)| == |rest|
  {
    FinishedExcept(made, stamp, owners, {x});
    CountOfMade(FinishExcept(made.Jobs(stamp, owners), {x}), made, stamp, owners);
    assert rest + {x} - {x} == rest;
  }

  /** Jobs for all three, made before the restart; m and a complete, b does not: after it two are
      counted for two, and recorded. */
  lemma RestartCountsEarly(image: string, distros: string -> Option<string>, stamp: string, owners: seq<string>)
    requires distros(image).Some?
    ensures var made := Census(ThreeNodes(image), Settings(true, COUNTED_NAMESPACE), distros);
            var now := Census(ThreeNodes(image), UNSET, distros);
            var jobs := FinishExcept(made.Jobs(stamp, owners), {"b"});
            && Evolved(jobs, made.Jobs(stamp, owners)) && now.Recorded(jobs) == Some(2)
            && !EveryNodeDone(jobs, now.Needing()) && !EveryNodeDone(jobs, made.Needing())
  {
    var made := Census(ThreeNodes(image), Settings(true, COUNTED_NAMESPACE), distros);
    var now := Census(ThreeNodes(image), UNSET, distros);
    var jobs := FinishExcept(made.Jobs(stamp, owners), {"b"});
    ThreeNeeding(image, made.settings, distros);
    ThreeNeeding(image, now.settings, distros);
    AllBut(made, stamp, owners, "b", {"m", "a"});
    NamesCount(now);
    EveryNodeIff(jobs, made.Needing());
    EveryNodeIff(jobs, now.Needing());
  }
}
