/** From completed DRBD jobs to storage classes with two replicas: the count goes through the
    status of the Cluster, written and read by parties that interleave
    (controllers/cluster_controller.go:677-728, pkg/install/storageclass/storageclass.go:79-93). */
module ReplicatedVolumes {
  import opened Sequences
  import opened Wrappers
  import opened LocalDisks
  import opened StorageClasses
  import Drbd = DrbdAdapter
  import Quorum = DrbdQuorum
  import Phases = ClusterPhases
  import PhaseLaws = ClusterPhaseLaws

  /** What a job handler had before it when it counted. */
  datatype View = View(jobs: seq<Drbd.Job>, nodes: seq<Drbd.Node>, settings: Drbd.Settings,
                       distros: string -> Option<string>)

  /** The count is the one the handler records, and no node is counted twice. */
  ghost predicate Backs(v: View, count: nat) {
    && Drbd.Recorded(v.jobs, v.nodes, v.settings, v.distros) == Some(count)
    && Distinct(Quorum.Targets(Drbd.Counted(v.jobs)))
  }

  /** Jobs had completed on two different nodes. */
  ghost predicate TwoDone(v: View) {
    exists a, b ::
      a in v.jobs && b in v.jobs && Drbd.Complete(a) && Drbd.Complete(b) && a.target != b.target
  }

  /** Every count recorded in the run is backed by what its handler saw. */
  ghost predicate Backed(start: Phases.World, actions: seq<Phases.Action>, views: seq<View>) {
    && |views| == |actions|
    && forall i: nat :: PhaseLaws.Records(start, actions, i) ==> Backs(views[i], actions[i].jobCount)
  }

  /** In every run, with stale copies, lost writes, restarts and concurrent handlers: a class with
      two replicas is generated from the stored count only if some handler of that run recorded its
      count while jobs had completed on two different nodes. */
  lemma TwoReplicasNeedTwoNodes(cluster: Phases.Cluster, disks: map<string, Disk>, claims: set<string>,
                                actions: seq<Phases.Action>, views: seq<View>,
                                template: StorageClass, order: seq<string>, pools: seq<Pools>, c: StorageClass)
    requires cluster.status.jobNum < 2 && Backed(Phases.Init(cluster, disks, claims), actions, views)
    requires Phases.Run(Phases.Init(cluster, disks, claims), actions).Some?
    requires Enumerates(order, NameMap(pools)) && Pristine(template)
    requires var count := Phases.Run(Phases.Init(cluster, disks, claims), actions).value.stored.status.jobNum;
             c in Classes(template, order, NameMap(pools), count >= 1, count >= 2)
    requires c.parameters.replicaNumber == "2"
    ensures exists i: nat :: PhaseLaws.Records(Phases.Init(cluster, disks, claims), actions, i) && TwoDone(views[i])
  {
    var start := Phases.Init(cluster, disks, claims);
    var count := Phases.Run(start, actions).value.stored.status.jobNum;
    GeneratedClass(template, order, pools, count >= 1, count >= 2, c);
    PhaseLaws.CountFromHandlers(cluster, disks, claims, actions);
    var i: nat :| PhaseLaws.Records(start, actions, i) && actions[i].jobCount == count;
    Quorum.TwoNodesDone(views[i].jobs, views[i].nodes, views[i].settings, views[i].distros);
    assert TwoDone(views[i]);
  }
}
