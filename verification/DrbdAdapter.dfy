/** DRBD adapter jobs, one per eligible node, and the count that decides whether the cluster
    may offer replicated volumes (pkg/install/drbd/drbd_adapter.go,
    controllers/cluster_controller.go:677-773). */
module DrbdAdapter {
  import opened Sequences
  import opened Wrappers

  const JOB_PREFIX := "drbd-adapter"
  /** The namespace the completion handler looks in, whatever the Cluster's target namespace. */
  const COUNTED_NAMESPACE := "hwameistor"

  datatype Node = Node(name: string, master: bool, controlPlane: bool, osImage: string)

  datatype Condition = Condition(kind: string, status: string)

  datatype Job = Job(name: string, namespace: string, target: string, owners: seq<string>, conditions: seq<Condition>)

  datatype DrbdSpec = DrbdSpec(deployOnMaster: string)

  /** The package's settings: which nodes may take part, given a table of supported systems. */
  datatype Settings = Settings(deployOnMaster: bool, namespace: string)

  /** What an operator starts with. */
  const UNSET := Settings(false, "")

  function GetDistro(n: Node, s: Settings, distros: string -> Option<string>): Option<string> {
    if (n.master || n.controlPlane) && !s.deployOnMaster then None else distros(n.osImage)
  }

  /** The nodes that need the adapter, in order. */
  function Eligible(nodes: seq<Node>, s: Settings, distros: string -> Option<string>): seq<Node> {
    if nodes == [] then []
    else if GetDistro(Last(nodes), s, distros).Some? then Eligible(Front(nodes), s, distros) + [Last(nodes)]
    else Eligible(Front(nodes), s, distros)
  }

  function JobFor(n: Node, s: Settings, distro: string, stamp: string, owners: seq<string>): Job {
    Job("drbd-adapter-" + n.name + "-" + distro + "-" + stamp, s.namespace, n.name, owners, [])
  }

  /** One job per eligible node. */
  function JobsFor(nodes: seq<Node>, s: Settings, distros: string -> Option<string>, stamp: string,
                   owners: seq<string>): seq<Job> {
    if nodes == [] then []
    else
      match GetDistro(Last(nodes), s, distros)
      case Some(distro) =>
        JobsFor(Front(nodes), s, distros, stamp, owners) + [JobFor(Last(nodes), s, distro, stamp, owners)]
      case None => JobsFor(Front(nodes), s, distros, stamp, owners)
  }

  /** A node needs the adapter if the table supports its system and, where masters do not take part,
      it carries neither of the two labels. */
  predicate Needs(n: Node, s: Settings, distros: string -> Option<string>) {
    distros(n.osImage).Some? && (s.deployOnMaster || !(n.master || n.controlPlane))
  }

  /** The eligible nodes are those that need the adapter, as often as they are listed. */
  lemma {:induction false} EligibleExactly(nodes: seq<Node>, s: Settings, distros: string -> Option<string>, n: Node)
    ensures multiset(Eligible(nodes, s, distros))[n] == if Needs(n, s, distros) then multiset(nodes)[n] else 0
  {
    if nodes != [] {
      Rejoin(nodes);
      EligibleExactly(Front(nodes), s, distros, n);
    }
  }

  /** The job for this node is named after it, its system and the time, and lives in the namespace
      set for the adapter. */
  predicate MadeFor(job: Job, n: Node, s: Settings, distros: string -> Option<string>, stamp: string,
                    owners: seq<string>) {
    && distros(n.osImage).Some?
    && job.name == "drbd-adapter-" + n.name + "-" + distros(n.osImage).value + "-" + stamp
    && job.namespace == s.namespace && job.target == n.name && job.owners == owners && job.conditions == []
  }

  /** The nodes that need the adapter get a job each, in their order, and no other node does. */
  lemma {:induction false} JobsExactly(nodes: seq<Node>, s: Settings, distros: string -> Option<string>,
                                       stamp: string, owners: seq<string>) returns (needing: seq<nat>)
    ensures var jobs := JobsFor(nodes, s, distros, stamp, owners);
            && |jobs| == |needing|
            && (forall k :: 0 <= k < |jobs| ==>
                  needing[k] < |nodes| && MadeFor(jobs[k], nodes[needing[k]], s, distros, stamp, owners))
    ensures forall k, l :: 0 <= k < l < |needing| ==> needing[k] < needing[l]
    ensures forall i :: 0 <= i < |nodes| ==> (i in needing <==> Needs(nodes[i], s, distros))
  {
    if nodes == [] {
      needing := [];
    } else {
      needing := JobsExactly(Front(nodes), s, distros, stamp, owners);
      if Needs(Last(nodes), s, distros) {
        needing := needing + [|nodes| - 1];
      }
    }
  }

  /** One call with a Cluster's DRBD configuration, which may be missing. */
  datatype Call = Call(spec: Option<DrbdSpec>, targetNamespace: string) {
    predicate Asks() {
      spec.Some? && spec.value.deployOnMaster == "yes"
    }
  }

  /** What a sequence of calls makes of the settings. */
  function Configured(s: Settings, calls: seq<Call>): Settings {
    if calls == [] then s
    else
      var before, call := Configured(s, Front(calls)), Last(calls);
      if call.spec == None then before
      else Settings(before.deployOnMaster || call.Asks(), call.targetNamespace)
  }

  /** The package-level variables and the jobs on the API server. */
  class Adapter {
    var settings: Settings
    var jobs: seq<Job>

    constructor (jobs: seq<Job>)
      ensures this.jobs == jobs && settings == UNSET
    {
      settings := UNSET;
      this.jobs := jobs;
    }

    method HandleDRBDConfigs(spec: Option<DrbdSpec>, targetNamespace: string)
      modifies this`settings
      ensures settings == Configured(old(settings), [Call(spec, targetNamespace)])
    {
      if spec == None {
        return;
      }
      if spec.value.deployOnMaster == "yes" {
        settings := settings.(deployOnMaster := true);
      }
      settings := settings.(namespace := targetNamespace);
    }

    method CreateDRBDForNode(n: Node, distros: string -> Option<string>, stamp: string, owners: seq<string>,
                             o: Outcome) returns (ok: bool)
      modifies this`jobs
      ensures if !Needs(n, settings, distros) then ok && jobs == old(jobs)
              else
                && (ok <==> o == Done)
                && jobs == old(jobs) + if o == Refused then [] else [
                     Job("drbd-adapter-" + n.name + "-" + distros(n.osImage).value + "-" + stamp,
                         settings.namespace, n.name, owners, [])]
    {
      var distro := GetDistro(n, settings, distros);
      if distro == None {
        return true;
      }
      if o == Refused {
        return false;
      }
      jobs := jobs + [JobFor(n, settings, distro.value, stamp, owners)];
      return o == Done;
    }

    /** Success adds one job per eligible node, owned by the Cluster; a failure leaves the jobs
        of a prefix of the nodes. */
    method CreateDRBDAdapter(cluster: string, nodes: seq<Node>, distros: string -> Option<string>, stamp: string,
                             outcomes: seq<Outcome>)
      returns (ok: bool)
      requires |outcomes| == |nodes|
      modifies this`jobs
      ensures exists n :: 0 <= n <= |nodes| &&
                jobs == old(jobs) + JobsFor(nodes[..n], settings, distros, stamp, [cluster])
      ensures ok ==> jobs == old(jobs) + JobsFor(nodes, settings, distros, stamp, [cluster])
      ensures ok <==> forall i :: 0 <= i < |nodes| && GetDistro(nodes[i], settings, distros).Some? ==>
                outcomes[i] == Done
    {
      for i := 0 to |nodes|
        invariant jobs == old(jobs) + JobsFor(nodes[..i], settings, distros, stamp, [cluster])
        invariant forall k :: 0 <= k < i && GetDistro(nodes[k], settings, distros).Some? ==> outcomes[k] == Done
      {
        FrontOfPrefix(nodes, i);
        var created := CreateDRBDForNode(nodes[i], distros, stamp, [cluster], outcomes[i]);
        if !created {
          ghost var n := if outcomes[i] == Refused then i else i + 1;
          assert jobs == old(jobs) + JobsFor(nodes[..n], settings, distros, stamp, [cluster]);
          return false;
        }
      }
      assert nodes[..|nodes|] == nodes;
      return true;
    }
  }

  // ---------- counting ----------

  predicate Complete(job: Job) {
    exists c :: c in job.conditions && c.kind == "Complete" && c.status == "True"
  }

  method IsJobComplete(job: Job) returns (complete: bool)
    ensures complete <==> exists c :: c in job.conditions && c.kind == "Complete" && c.status == "True"
  {
    for i := 0 to |job.conditions|
      invariant forall c :: c in job.conditions[..i] ==> !(c.kind == "Complete" && c.status == "True")
    {
      if job.conditions[i].kind == "Complete" && job.conditions[i].status == "True" {
        return true;
      }
    }
    return false;
  }

  predicate Counts(job: Job) {
    job.namespace == COUNTED_NAMESPACE && JOB_PREFIX <= job.name && Complete(job)
  }

  function Counted(jobs: seq<Job>): seq<Job> {
    if jobs == [] then []
    else if Counts(Last(jobs)) then Counted(Front(jobs)) + [Last(jobs)]
    else Counted(Front(jobs))
  }

  /** The counted jobs are, as often as they are listed, those in the namespace hwameistor whose name
      begins with drbd-adapter and which some condition says are complete. */
  lemma {:induction false} CountedExactly(jobs: seq<Job>, job: Job)
    ensures multiset(Counted(jobs))[job] ==
            if job.namespace == "hwameistor" && "drbd-adapter" <= job.name &&
               exists c :: c in job.conditions && c.kind == "Complete" && c.status == "True"
            then multiset(jobs)[job] else 0
  {
    if jobs != [] {
      Rejoin(jobs);
      CountedExactly(Front(jobs), job);
    }
  }

  /** What the handler records when some job completes. */
  function Recorded(jobs: seq<Job>, nodes: seq<Node>, s: Settings, distros: string -> Option<string>): Option<nat> {
    if |Counted(jobs)| >= |Eligible(nodes, s, distros)| then Some(|Counted(jobs)|) else None
  }

  method CountJobs(jobs: seq<Job>, nodes: seq<Node>, s: Settings, distros: string -> Option<string>)
    returns (recorded: Option<nat>)
    ensures recorded == Recorded(jobs, nodes, s, distros)
    ensures recorded.Some? <==> |Counted(jobs)| >= |Eligible(nodes, s, distros)|
    ensures recorded.Some? ==> recorded.value == |Counted(jobs)|
  {
    var jobCount, nodeCount := 0, 0;
    for i := 0 to |jobs|
      invariant jobCount == |Counted(jobs[..i])|
    {
      FrontOfPrefix(jobs, i);
      if jobs[i].namespace == COUNTED_NAMESPACE && JOB_PREFIX <= jobs[i].name {
        var done := IsJobComplete(jobs[i]);
        if done {
          jobCount := jobCount + 1;
        }
      }
    }
    for i := 0 to |nodes|
      invariant nodeCount == |Eligible(nodes[..i], s, distros)|
    {
      FrontOfPrefix(nodes, i);
      if GetDistro(nodes[i], s, distros).Some? {
        nodeCount := nodeCount + 1;
      }
    }
    assert jobs[..|jobs|] == jobs && nodes[..|nodes|] == nodes;
    return if jobCount >= nodeCount then Some(jobCount) else None;
  }

  /** The first owner that has a name, or none. */
  function OwnerOf(owners: seq<string>): (name: string)
    ensures if name == "" then forall i :: 0 <= i < |owners| ==> owners[i] == ""
            else exists i :: 0 <= i < |owners| && owners[i] == name && forall k :: 0 <= k < i ==> owners[k] == ""
  {
    if owners == [] then ""
    else
      var name := OwnerOf(Front(owners));
      if name == "" then Last(owners) else name
  }

  method OwnerName(owners: seq<string>) returns (name: string)
    ensures name == OwnerOf(owners)
  {
    for i := 0 to |owners|
      invariant forall k :: 0 <= k < i ==> owners[k] == ""
    {
      if owners[i] != "" {
        return owners[i];
      }
    }
    return "";
  }

  datatype DrbdStatus = DrbdStatus(created: bool, jobNum: nat)

  /** The Clusters on the API server by name; they are not namespaced. */
  class Clusters {
    var statuses: map<string, DrbdStatus>

    constructor (statuses: map<string, DrbdStatus>)
      ensures this.statuses == statuses
    {
      this.statuses := statuses;
    }

    /** A completed job, if the count suffices, records it with the Cluster that owns the job;
        every other Cluster, and every Cluster otherwise, is left alone. */
    method HandleDrbdJobUpdate(job: Job, listed: bool, jobs: seq<Job>, nodes: seq<Node>, s: Settings,
                               distros: string -> Option<string>, o: Outcome) returns (ok: bool)
      modifies this
      ensures var recorded := if Complete(job) && listed then Recorded(jobs, nodes, s, distros) else None;
              var name := OwnerOf(job.owners);
              if recorded.Some? && name in old(statuses) then
                && statuses == (if o == Refused then old(statuses)
                                else old(statuses)[name := DrbdStatus(true, recorded.value)])
                && (ok <==> o == Done)
              else
                && statuses == old(statuses)
                && (ok <==> recorded == None && (Complete(job) ==> listed))
    {
      var complete := IsJobComplete(job);
      if !complete {
        return true;
      }
      if !listed {
        return false;
      }
      var recorded := CountJobs(jobs, nodes, s, distros);
      if recorded == None {
        return true;
      }
      var name := OwnerName(job.owners);
      if name !in statuses || o == Refused {
        return false;
      }
      statuses := statuses[name := DrbdStatus(true, recorded.value)];
      return o == Done;
    }
  }

  // ---------- what calls leave of the settings ----------

  /** Some configuration asks, with "yes", to deploy on masters. */
  ghost predicate SomeAsks(calls: seq<Call>) {
    exists i :: 0 <= i < |calls| && calls[i].spec.Some? && calls[i].spec.value.deployOnMaster == "yes"
  }

  function LastNamespace(namespace: string, calls: seq<Call>): string {
    if calls == [] then namespace
    else if Last(calls).spec.Some? then Last(calls).targetNamespace
    else LastNamespace(namespace, Front(calls))
  }

  /** After any calls in one process, nodes with a control plane take part exactly when some call
      asked for it, and jobs go to the namespace of the last call that had a configuration. */
  lemma {:induction false} CallHistory(s: Settings, calls: seq<Call>)
    ensures Configured(s, calls).deployOnMaster <==> s.deployOnMaster || SomeAsks(calls)
    ensures Configured(s, calls).namespace == LastNamespace(s.namespace, calls)
  {
    if calls != [] {
      var before := Front(calls);
      CallHistory(s, before);
      assert forall i :: 0 <= i < |before| ==> before[i] == calls[i];
    }
  }
}
