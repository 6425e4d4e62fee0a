/** When the number of completed DRBD jobs says that every node is done: the jobs are made for
    the nodes eligible at one time and counted against those eligible at another
    (pkg/install/drbd/drbd_adapter.go:108-135, controllers/cluster_controller.go:677-728). */
module DrbdQuorum {
  import opened Sequences
  import opened Wrappers
  import opened DrbdAdapter

  // ---------- the count is a quorum ----------

  function NodeNames(nodes: seq<Node>): seq<string> {
    if nodes == [] then [] else NodeNames(Front(nodes)) + [Last(nodes).name]
  }

  function Targets(jobs: seq<Job>): seq<string> {
    if jobs == [] then [] else Targets(Front(jobs)) + [Last(jobs).target]
  }

  lemma {:induction false} NamesAndTargets(nodes: seq<Node>, jobs: seq<Job>)
    ensures |NodeNames(nodes)| == |nodes| && |Targets(jobs)| == |jobs|
    ensures forall i :: 0 <= i < |nodes| ==> NodeNames(nodes)[i] == nodes[i].name
    ensures forall i :: 0 <= i < |jobs| ==> Targets(jobs)[i] == jobs[i].target
    decreases |nodes| + |jobs|
  {
    if nodes != [] {
      NamesAndTargets(Front(nodes), jobs);
    } else if jobs != [] {
      NamesAndTargets(nodes, Front(jobs));
    }
  }

  /** The counted jobs target eligible nodes, at most one each. */
  ghost predicate OnePerNode(counted: seq<Job>, eligible: seq<Node>) {
    Distinct(Targets(counted)) && Elements(Targets(counted)) <= Elements(NodeNames(eligible))
  }

  /** With at most one counted job per eligible node, the count reaches the number of eligible
      nodes exactly when every one of them has a completed job. */
  lemma CountIsQuorum(jobs: seq<Job>, nodes: seq<Node>, s: Settings, distros: string -> Option<string>)
    requires Distinct(NodeNames(Eligible(nodes, s, distros)))
    requires OnePerNode(Counted(jobs), Eligible(nodes, s, distros))
    ensures Recorded(jobs, nodes, s, distros).Some? <==>
            Elements(NodeNames(Eligible(nodes, s, distros))) <= Elements(Targets(Counted(jobs)))
  {
    var names, targets := NodeNames(Eligible(nodes, s, distros)), Targets(Counted(jobs));
    NamesAndTargets(Eligible(nodes, s, distros), Counted(jobs));
    DistinctCount(names);
    DistinctCount(targets);
    SubsetCount(Elements(targets), Elements(names));
    if Elements(names) <= Elements(targets) {
      SubsetCount(Elements(names), Elements(targets));
    }
  }

  /** A recorded count of two or more stands for two different nodes with completed jobs. */
  lemma TwoNodesDone(jobs: seq<Job>, nodes: seq<Node>, s: Settings, distros: string -> Option<string>)
    requires Distinct(Targets(Counted(jobs)))
    requires Recorded(jobs, nodes, s, distros).Some? && Recorded(jobs, nodes, s, distros).value >= 2
    ensures var done := Counted(jobs);
            && done[0] in jobs && done[1] in jobs && Complete(done[0]) && Complete(done[1])
            && done[0].target != done[1].target
  {
    NamesAndTargets([], Counted(jobs));
    CountedCome(jobs, 0);
    CountedCome(jobs, 1);
  }

  lemma {:induction false} CountedCome(jobs: seq<Job>, i: nat)
    requires i < |Counted(jobs)|
    ensures Counted(jobs)[i] in jobs && Counts(Counted(jobs)[i])
  {
    assert jobs == Front(jobs) + [Last(jobs)];
    if i < |Counted(Front(jobs))| {
      CountedCome(Front(jobs), i);
    }
  }

  // ---------- jobs as CreateDRBDAdapter makes them ----------

  /** The same jobs later on: only their conditions may have changed. */
  ghost predicate Evolved(jobs: seq<Job>, made: seq<Job>) {
    |jobs| == |made| && forall i :: 0 <= i < |jobs| ==> jobs[i] == made[i].(conditions := jobs[i].conditions)
  }

  lemma {:induction false} MadeForEligible(nodes: seq<Node>, s: Settings, distros: string -> Option<string>,
                                           stamp: string, owners: seq<string>)
    ensures var made, eligible := JobsFor(nodes, s, distros, stamp, owners), Eligible(nodes, s, distros);
            && |made| == |eligible|
            && forall i :: 0 <= i < |made| ==>
                 made[i].target == eligible[i].name && made[i].namespace == s.namespace &&
                 JOB_PREFIX <= made[i].name && made[i].conditions == []
  {
    if nodes != [] {
      MadeForEligible(Front(nodes), s, distros, stamp, owners);
    }
  }

  /** Every one of these nodes has a completed job, wherever the job lives. */
  ghost predicate EveryNodeDone(jobs: seq<Job>, nodes: seq<Node>) {
    forall n :: n in nodes ==> exists job :: job in jobs && Complete(job) && job.target == n.name
  }

  // ---------- made at one time, counted at another ----------

  /** What decides which nodes need a job: the nodes there are, the package's settings and its
      table of supported systems. */
  datatype Census = Census(nodes: seq<Node>, settings: Settings, distros: string -> Option<string>) {
    function Needing(): seq<Node> {
      Eligible(nodes, settings, distros)
    }

    function Names(): set<string> {
      Elements(NodeNames(Needing()))
    }

    function Jobs(stamp: string, owners: seq<string>): seq<Job> {
      JobsFor(nodes, settings, distros, stamp, owners)
    }

    function Recorded(jobs: seq<Job>): Option<nat> {
      DrbdAdapter.Recorded(jobs, nodes, settings, distros)
    }

    ghost predicate Proper() {
      Distinct(NodeNames(nodes))
    }
  }

  lemma {:induction false} EligibleDistinct(nodes: seq<Node>, s: Settings, distros: string -> Option<string>)
    requires Distinct(NodeNames(nodes))
    ensures Distinct(NodeNames(Eligible(nodes, s, distros)))
    ensures forall x :: x in NodeNames(Eligible(nodes, s, distros)) ==> x in NodeNames(nodes)
  {
    if nodes != [] {
      var before := Front(nodes);
      DistinctSnoc(NodeNames(before), Last(nodes).name);
      EligibleDistinct(before, s, distros);
      DistinctSnoc(NodeNames(Eligible(before, s, distros)), Last(nodes).name);
    }
  }

  lemma NamesCount(c: Census)
    requires c.Proper()
    ensures |c.Names()| == |c.Needing()|
  {
    EligibleDistinct(c.nodes, c.settings, c.distros);
    NamesAndTargets(c.Needing(), []);
    DistinctCount(NodeNames(c.Needing()));
  }

  function DoneNames(jobs: seq<Job>): set<string> {
    if jobs == [] then {}
    else DoneNames(Front(jobs)) + if Complete(Last(jobs)) then {Last(jobs).target} else {}
  }

  lemma {:induction false} DoneNamesHas(jobs: seq<Job>, x: string)
    ensures x in DoneNames(jobs) <==> exists job :: job in jobs && Complete(job) && job.target == x
    ensures x in DoneNames(jobs) ==> x in Targets(jobs)
  {
    if jobs != [] {
      DoneNamesHas(Front(jobs), x);
      Rejoin(jobs);
    }
  }

  lemma EveryNodeIff(jobs: seq<Job>, nodes: seq<Node>)
    ensures EveryNodeDone(jobs, nodes) <==> Elements(NodeNames(nodes)) <= DoneNames(jobs)
  {
    NamesAndTargets(nodes, []);
    forall n | n in nodes
      ensures n.name in Elements(NodeNames(nodes))
      ensures n.name in DoneNames(jobs) <==> exists job :: job in jobs && Complete(job) && job.target == n.name
    {
      var i :| 0 <= i < |nodes| && nodes[i] == n;
      assert NodeNames(nodes)[i] == n.name;
      DoneNamesHas(jobs, n.name);
    }
    if EveryNodeDone(jobs, nodes) {
      forall x | x in NodeNames(nodes)
        ensures x in DoneNames(jobs)
      {
        var i :| 0 <= i < |nodes| && NodeNames(nodes)[i] == x;
        assert nodes[i] in nodes;
      }
    }
  }

  /** Jobs in the counted namespace are counted once per node that is done, others never. */
  lemma {:induction false} CountedByName(jobs: seq<Job>, namespace: string)
    requires Distinct(Targets(jobs))
    requires forall i :: 0 <= i < |jobs| ==> jobs[i].namespace == namespace && JOB_PREFIX <= jobs[i].name
    ensures |Counted(jobs)| == if namespace == COUNTED_NAMESPACE then |DoneNames(jobs)| else 0
  {
    if jobs != [] {
      DistinctSnoc(Targets(Front(jobs)), Last(jobs).target);
      CountedByName(Front(jobs), namespace);
      DoneNamesHas(Front(jobs), Last(jobs).target);
    }
  }

  /** Whatever became of the jobs made, their targets are the nodes they were made for, and the
      handler counts the nodes that are done, or nothing. */
  lemma CountOfMade(jobs: seq<Job>, made: Census, stamp: string, owners: seq<string>)
    requires made.Proper() && Evolved(jobs, made.Jobs(stamp, owners))
    ensures Elements(Targets(jobs)) == made.Names() && DoneNames(jobs) <= made.Names()
    ensures |Counted(jobs)| == if made.settings.namespace == COUNTED_NAMESPACE then |DoneNames(jobs)| else 0
  {
    MadeForEligible(made.nodes, made.settings, made.distros, stamp, owners);
    EligibleDistinct(made.nodes, made.settings, made.distros);
    NamesAndTargets(made.Needing(), jobs);
    assert Targets(jobs) == NodeNames(made.Needing());
    CountedByName(jobs, made.settings.namespace);
    forall x | x in DoneNames(jobs)
      ensures x in made.Names()
    {
      DoneNamesHas(jobs, x);
    }
  }

  function Finish(job: Job): (done: Job)
    ensures Complete(done) && done == job.(conditions := done.conditions)
  {
    var condition := Condition("Complete", "True");
    var conditions := [condition];
    assert condition in conditions;
    job.(conditions := conditions)
  }

  /** The jobs with all but those of the spared nodes completed. */
  function FinishExcept(jobs: seq<Job>, spared: set<string>): (done: seq<Job>)
    ensures Evolved(done, jobs)
    ensures forall i :: 0 <= i < |jobs| ==> done[i] == if jobs[i].target in spared then jobs[i] else Finish(jobs[i])
  {
    seq(|jobs|, i requires 0 <= i < |jobs| => if jobs[i].target in spared then jobs[i] else Finish(jobs[i]))
  }

  lemma FinishedExcept(made: Census, stamp: string, owners: seq<string>, spared: set<string>)
    requires made.Proper()
    ensures DoneNames(FinishExcept(made.Jobs(stamp, owners), spared)) == made.Names() - spared
  {
    var jobs := FinishExcept(made.Jobs(stamp, owners), spared);
    MadeForEligible(made.nodes, made.settings, made.distros, stamp, owners);
    CountOfMade(jobs, made, stamp, owners);
    NamesAndTargets([], jobs);
    forall x | x in made.Names()
      ensures x in DoneNames(jobs) <==> x !in spared
    {
      DoneNamesHas(jobs, x);
      var i :| 0 <= i < |jobs| && Targets(jobs)[i] == x;
      assert jobs[i] in jobs;
    }
  }

  // ---------- when the count is right ----------

  /** The count is right about the nodes that need a job when it is taken. */
  ghost predicate RightNow(jobs: seq<Job>, now: Census) {
    now.Recorded(jobs).Some? <==> EveryNodeDone(jobs, now.Needing())
  }

  /** The count is right about the nodes that got a job. */
  ghost predicate RightThen(jobs: seq<Job>, made: Census, now: Census) {
    now.Recorded(jobs).Some? <==> EveryNodeDone(jobs, made.Needing())
  }

  /** The same nodes need a job as got one, in the namespace looked in; or there is none to wait
      for; or there are too few jobs to ever count, and none can stand for all the nodes. */
  predicate Comparable(made: Census, now: Census) {
    || now.Names() == {}
    || (if made.settings.namespace == COUNTED_NAMESPACE
        then now.Names() == made.Names() || |now.Names()| > |made.Names()|
        else !(now.Names() <= made.Names()))
  }

  lemma ComparableIsRight(jobs: seq<Job>, made: Census, now: Census, stamp: string, owners: seq<string>)
    requires made.Proper() && now.Proper() && Comparable(made, now) && Evolved(jobs, made.Jobs(stamp, owners))
    ensures RightNow(jobs, now)
  {
    CountOfMade(jobs, made, stamp, owners);
    EveryNodeIff(jobs, now.Needing());
    NamesCount(now);
    SubsetCount(DoneNames(jobs), made.Names());
    if now.Names() <= DoneNames(jobs) {
      SubsetCount(now.Names(), DoneNames(jobs));
    }
  }

  lemma IncomparableIsWrong(made: Census, now: Census, stamp: string, owners: seq<string>) returns (jobs: seq<Job>)
    requires made.Proper() && now.Proper() && !Comparable(made, now)
    ensures Evolved(jobs, made.Jobs(stamp, owners)) && !RightNow(jobs, now)
  {
    var spared: set<string> := {};
    NamesCount(now);
    if made.settings.namespace == COUNTED_NAMESPACE && now.Names() <= made.Names() {
      var x :| x in now.Names();
      spared := {x};
      SubsetCount(now.Names(), made.Names());
    }
    jobs := FinishExcept(made.Jobs(stamp, owners), spared);
    FinishedExcept(made, stamp, owners, spared);
    CountOfMade(jobs, made, stamp, owners);
    EveryNodeIff(jobs, now.Needing());
    SubsetCount(made.Names() - spared, made.Names());
  }

  /** The jobs were made for the nodes needing one then and are counted against those needing one
      now: other nodes, other settings after a restart of the operator, another table. The count is
      right about the nodes needing one now, for every pattern of completions, exactly when the
      two sets compare as above. */
  lemma QuorumExactly(made: Census, now: Census, stamp: string, owners: seq<string>)
    requires made.Proper() && now.Proper()
    ensures (forall jobs :: Evolved(jobs, made.Jobs(stamp, owners)) ==> RightNow(jobs, now)) <==> Comparable(made, now)
  {
    if Comparable(made, now) {
      forall jobs | Evolved(jobs, made.Jobs(stamp, owners))
        ensures RightNow(jobs, now)
      {
        ComparableIsRight(jobs, made, now, stamp, owners);
      }
    } else {
      var jobs := IncomparableIsWrong(made, now, stamp, owners);
    }
  }

  lemma AsManyIsRight(jobs: seq<Job>, made: Census, now: Census, stamp: string, owners: seq<string>)
    requires made.Proper() && now.Proper() && Evolved(jobs, made.Jobs(stamp, owners))
    requires |now.Names()| == |made.Names()| && (made.settings.namespace == COUNTED_NAMESPACE || made.Names() == {})
    ensures RightThen(jobs, made, now)
  {
    CountOfMade(jobs, made, stamp, owners);
    EveryNodeIff(jobs, made.Needing());
    NamesCount(now);
    SubsetCount(DoneNames(jobs), made.Names());
    assert made.Names() <= DoneNames(jobs) <==> DoneNames(jobs) == made.Names();
  }

  /** It is right about the nodes that got a job exactly when as many need one now, and the jobs
      live in the namespace looked in or there are none. */
  lemma AllJobsExactly(made: Census, now: Census, stamp: string, owners: seq<string>)
    requires made.Proper() && now.Proper()
    ensures (forall jobs :: Evolved(jobs, made.Jobs(stamp, owners)) ==> RightThen(jobs, made, now)) <==>
            |now.Names()| == |made.Names()| && (made.settings.namespace == COUNTED_NAMESPACE || made.Names() == {})
  {
    if |now.Names()| == |made.Names()| && (made.settings.namespace == COUNTED_NAMESPACE || made.Names() == {}) {
      forall jobs | Evolved(jobs, made.Jobs(stamp, owners))
        ensures RightThen(jobs, made, now)
      {
        AsManyIsRight(jobs, made, now, stamp, owners);
      }
    } else {
      var jobs := WrongAboutMade(made, now, stamp, owners);
    }
  }

  lemma WrongAboutMade(made: Census, now: Census, stamp: string, owners: seq<string>) returns (jobs: seq<Job>)
    requires made.Proper() && now.Proper()
    requires |now.Names()| != |made.Names()| || (made.settings.namespace != COUNTED_NAMESPACE && made.Names() != {})
    ensures Evolved(jobs, made.Jobs(stamp, owners)) && !RightThen(jobs, made, now)
  {
    var spared: set<string> := {};
    NamesCount(now);
    var reached := if made.settings.namespace == COUNTED_NAMESPACE then |now.Names()| < |made.Names()|
                   else now.Names() == {};
    if reached {
      var x :| x in made.Names();
      spared := {x};
    }
    jobs := FinishExcept(made.Jobs(stamp, owners), spared);
    FinishedExcept(made, stamp, owners, spared);
    CountOfMade(jobs, made, stamp, owners);
    EveryNodeIff(jobs, made.Needing());
    SubsetCount(made.Names() - spared, made.Names());
  }

  /** It is never early, recording a count before every node that got a job is done, exactly when
      there are at least as many nodes needing one now; elsewhere than in the namespace looked
      in, when there is any. */
  lemma NeverEarlyExactly(made: Census, now: Census, stamp: string, owners: seq<string>)
    requires made.Proper() && now.Proper()
    ensures (forall jobs :: Evolved(jobs, made.Jobs(stamp, owners)) && now.Recorded(jobs).Some? ==>
               EveryNodeDone(jobs, made.Needing())) <==> !Early(made, now)
  {
    NamesCount(now);
    forall jobs | Evolved(jobs, made.Jobs(stamp, owners)) && now.Recorded(jobs).Some? && !Early(made, now)
      ensures EveryNodeDone(jobs, made.Needing())
    {
      CountOfMade(jobs, made, stamp, owners);
      EveryNodeIff(jobs, made.Needing());
      SubsetCount(DoneNames(jobs), made.Names());
    }
    if Early(made, now) {
      var x :| x in made.Names();
      var jobs := FinishExcept(made.Jobs(stamp, owners), {x});
      FinishedExcept(made, stamp, owners, {x});
      CountOfMade(jobs, made, stamp, owners);
      EveryNodeIff(jobs, made.Needing());
      SubsetCount(made.Names() - {x}, made.Names());
    }
  }

  predicate Early(made: Census, now: Census) {
    && made.Names() != {}
    && (if made.settings.namespace == COUNTED_NAMESPACE then |now.Names()| < |made.Names()| else now.Names() == {})
  }
}
