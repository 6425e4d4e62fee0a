/** From Reserved to CreatedLDC: every available disk has its claim
    (controllers/cluster_controller.go:594-615, pkg/install/utils/autocreate_localdiskclaims.go). */
module ClusterClaims {
  import opened Sequences
  import opened Wrappers
  import opened LocalDisks
  import opened ClusterPhases
  import opened ClusterPhaseLaws

  // ---------- nobody gets past claiming without claims ----------

  /** A claim was made for the disk's node and type. */
  ghost predicate ClaimMadeFor(made: seq<Made>, d: Disk) {
    exists i :: 0 <= i < |made| && made[i].claim.node == d.node && made[i].claim.diskType == d.diskType
  }

  /** Every available, unreserved disk of the listing has a claim made for its node and type. */
  ghost predicate AllClaimed(made: seq<Made>, listed: seq<Disk>) {
    forall d :: d in listed && d.state == "Available" && !d.reserved ==> ClaimMadeFor(made, d)
  }

  /** In step k of the run the worker lists, to claim, all the disks there are. */
  ghost predicate ListsAll(start: World, actions: seq<Action>, k: nat) {
    && k < |actions| && actions[k].List? && actions[k].ok
    && match Run(start, actions[..k])
       case None => false
       case Some(w) =>
         w.worker.ClaimListing? && forall name :: name in w.disks ==> w.disks[name] in actions[k].listed
  }

  /** For some listing of all disks taken in the run, every available one has its claim. */
  ghost predicate SomeListingClaimed(start: World, actions: seq<Action>, made: seq<Made>) {
    exists k: nat :: ListsAll(start, actions, k) && AllClaimed(made, actions[k].listed)
  }

  ghost predicate ListedInRun(start: World, actions: seq<Action>, disks: seq<Disk>) {
    exists k: nat :: ListsAll(start, actions, k) && disks == Sifted(actions[k].listed)
  }

  lemma ListsEarlier(start: World, actions: seq<Action>, k: nat)
    requires actions != [] && ListsAll(start, Front(actions), k)
    ensures ListsAll(start, actions, k) && Front(actions)[k] == actions[k]
  {
    assert Front(actions)[..k] == actions[..k];
  }

  lemma ListedEarlier(start: World, actions: seq<Action>, disks: seq<Disk>)
    requires actions != [] && ListedInRun(start, Front(actions), disks)
    ensures ListedInRun(start, actions, disks)
  {
    var k: nat :| ListsAll(start, Front(actions), k) && disks == Sifted(Front(actions)[k].listed);
    ListsEarlier(start, actions, k);
  }

  lemma ClaimedEarlier(start: World, actions: seq<Action>, made: seq<Made>, more: seq<Made>)
    requires actions != [] && SomeListingClaimed(start, Front(actions), made) && made <= more
    ensures SomeListingClaimed(start, actions, more)
  {
    var k: nat :| ListsAll(start, Front(actions), k) && AllClaimed(made, Front(actions)[k].listed);
    ListsEarlier(start, actions, k);
    forall d | d in actions[k].listed && d.state == "Available" && !d.reserved
      ensures ClaimMadeFor(more, d)
    {
      var i :| 0 <= i < |made| && made[i].claim.node == d.node && made[i].claim.diskType == d.diskType;
      assert more[i] == made[i];
    }
  }

  /** Two disks of one key agree on node and type, as long as node names have no separator. */
  lemma {:induction false} KeyClaimed(disks: seq<Disk>, d: Disk)
    requires NodesPlain(disks) && d in disks
    ensures exists k :: 0 <= k < |ClaimsFor(disks)| && ClaimFits(ClaimsFor(disks)[k], d)
  {
    ClaimsCoverExactly(disks);
  }

  /** A pass that has made every claim of its sifted listing has claimed that listing. */
  lemma PassClaims(start: World, actions: seq<Action>, disks: seq<Disk>, made: seq<Made>)
    requires ListedInRun(start, actions, disks) && NodesPlain(disks)
    requires forall i :: 0 <= i < |ClaimsFor(disks)| ==> WasMade(made, ClaimsFor(disks)[i])
    ensures SomeListingClaimed(start, actions, made)
  {
    var k: nat :| ListsAll(start, actions, k) && disks == Sifted(actions[k].listed);
    forall d | d in actions[k].listed && d.state == "Available" && !d.reserved
      ensures ClaimMadeFor(made, d)
    {
      assert d in disks;
      KeyClaimed(disks, d);
      var j :| 0 <= j < |ClaimsFor(disks)| && ClaimFits(ClaimsFor(disks)[j], d);
      assert WasMade(made, ClaimsFor(disks)[j]);
    }
  }

  predicate Asking(w: World) {
    !w.stored.spec.notClaim && (!w.worker.Idle? ==> !w.worker.c.spec.notClaim)
  }

  lemma AskingStep(w: World, a: Action)
    requires Asking(w) && Enabled(w, a) && AsksForClaims(a)
    ensures Asking(Apply(w, a))
  {
  }

  /** Claiming is asked for wherever a copy of the specification is about to be acted on, and nobody
      stands at CreatedLDC, or writes it, without the claims. */
  ghost predicate ClaimsFirst(start: World, actions: seq<Action>, w: World) {
    && Asking(w)
    && (w.worker.Claiming? ==> ListedInRun(start, actions, w.worker.disks))
    && (Rank(Effective(w.stored.status)) == 3 ==> SomeListingClaimed(start, actions, w.made))
    && (w.worker.Writing? && Rank(w.worker.c.status.phase) == 3 ==> SomeListingClaimed(start, actions, w.made))
  }

  ghost predicate AsksForClaims(a: Action) {
    a.EditSpec? ==> !a.spec.notClaim
  }

  predicate PlainNodes(a: Action) {
    a.List? ==> forall i :: 0 <= i < |a.listed| ==> ':' !in a.listed[i].node
  }

  /** What a step may do to the phase once claiming is asked for, and to the listing being claimed. */
  ghost predicate RisesFromClaiming(w: World, w': World, a: Action) {
    && (Rank(Effective(w'.stored.status)) == 3 ==> AtEnd(w))
    && (w'.worker.Writing? && Rank(w'.worker.c.status.phase) == 3 ==>
          AtEnd(w) || (w.worker.Claiming? && w.worker.next == |ClaimsFor(w.worker.disks)|))
    && (w'.worker.Claiming? ==>
          || (w.worker.Claiming? && w'.worker.disks == w.worker.disks)
          || (a.List? && a.ok && w'.worker.disks == Sifted(a.listed)))
    && w.made <= w'.made
  }

  predicate AtEnd(w: World) {
    Rank(Effective(w.stored.status)) == 3 || (w.worker.Writing? && Rank(w.worker.c.status.phase) == 3)
  }

  lemma WorkerRises(w: World, a: Action)
    requires Inv(w) && Enabled(w, a) && OfWorker(a) && Asking(w)
    ensures RisesFromClaiming(w, Apply(w, a), a)
  {
  }

  lemma OutsideRises(w: World, a: Action)
    requires Inv(w) && Enabled(w, a) && !OfWorker(a)
    ensures RisesFromClaiming(w, Apply(w, a), a)
  {
  }

  lemma NewListing(start: World, actions: seq<Action>, w: World)
    requires actions != [] && Run(start, Front(actions)) == Some(w) && Enabled(w, Last(actions))
    requires Last(actions).List? && Last(actions).ok && w.worker.ClaimListing?
    ensures ListedInRun(start, actions, Sifted(Last(actions).listed))
  {
    var k := |actions| - 1;
    assert actions[..k] == Front(actions);
    forall name | name in w.disks
      ensures w.disks[name] in actions[k].listed
    {
      var i :| 0 <= i < |actions[k].listed| && actions[k].listed[i].name == name;
      assert actions[k].listed[i] == w.disks[name];
    }
    assert ListsAll(start, actions, k);
  }

  lemma ListingStays(start: World, actions: seq<Action>, w: World)
    requires actions != [] && Run(start, Front(actions)) == Some(w) && Enabled(w, Last(actions))
    requires w.worker.Claiming? ==> ListedInRun(start, Front(actions), w.worker.disks)
    requires RisesFromClaiming(w, Apply(w, Last(actions)), Last(actions))
    ensures Apply(w, Last(actions)).worker.Claiming? ==>
              ListedInRun(start, actions, Apply(w, Last(actions)).worker.disks)
  {
    if w.worker.Claiming? {
      ListedEarlier(start, actions, w.worker.disks);
    }
    if Last(actions).List? && Last(actions).ok && w.worker.ClaimListing? {
      NewListing(start, actions, w);
    }
  }

  lemma LastClaimMade(start: World, actions: seq<Action>, w: World)
    requires actions != [] && Inv(w) && w.worker.Claiming? && w.worker.next == |ClaimsFor(w.worker.disks)|
    requires ListedInRun(start, Front(actions), w.worker.disks) && NodesPlain(w.worker.disks)
    ensures SomeListingClaimed(start, Front(actions), w.made)
  {
    PassClaims(start, Front(actions), w.worker.disks, w.made);
  }

  lemma ClaimsFirstStep(start: World, actions: seq<Action>, w: World)
    requires actions != [] && Run(start, Front(actions)) == Some(w) && Enabled(w, Last(actions)) && Inv(w)
    requires ClaimsFirst(start, Front(actions), w) && AsksForClaims(Last(actions))
    requires w.worker.Claiming? ==> NodesPlain(w.worker.disks)
    ensures ClaimsFirst(start, actions, Apply(w, Last(actions)))
  {
    var a, w' := Last(actions), Apply(w, Last(actions));
    AskingStep(w, a);
    if OfWorker(a) {
      WorkerRises(w, a);
    } else {
      OutsideRises(w, a);
    }
    ListingStays(start, actions, w);
    if w.worker.Claiming? && w.worker.next == |ClaimsFor(w.worker.disks)| {
      LastClaimMade(start, actions, w);
    }
    if SomeListingClaimed(start, Front(actions), w.made) {
      ClaimedEarlier(start, actions, w.made, w'.made);
    }
  }

  lemma ListedPlain(start: World, actions: seq<Action>, disks: seq<Disk>)
    requires ListedInRun(start, actions, disks) && forall i :: 0 <= i < |actions| ==> PlainNodes(actions[i])
    ensures NodesPlain(disks)
  {
    var k: nat :| ListsAll(start, actions, k) && disks == Sifted(actions[k].listed);
    assert PlainNodes(actions[k]);
  }

  lemma {:induction false} ClaimsFirstInRun(c: Cluster, disks: map<string, Disk>, claims: set<string>,
                                            actions: seq<Action>)
    requires !c.spec.notClaim && Rank(Effective(c.status)) <= 2
    requires forall i :: 0 <= i < |actions| ==> AsksForClaims(actions[i]) && PlainNodes(actions[i])
    requires Run(Init(c, disks, claims), actions).Some?
    ensures ClaimsFirst(Init(c, disks, claims), actions, Run(Init(c, disks, claims), actions).value)
  {
    if actions != [] {
      var start := Init(c, disks, claims);
      var w := Run(start, Front(actions)).value;
      ClaimsFirstInRun(c, disks, claims, Front(actions));
      InvInRun(c, disks, claims, Front(actions));
      if w.worker.Claiming? {
        ListedPlain(start, Front(actions), w.worker.disks);
      }
      ClaimsFirstStep(start, actions, w);
    }
  }

  /** In every run in which claiming is asked for throughout, a Cluster that is found at CreatedLDC,
      and was not at the start, got there over a listing of all disks taken in that run, every
      available and unreserved one of which has a claim made for its node and type. */
  lemma CreatedMeansClaimed(c: Cluster, disks: map<string, Disk>, claims: set<string>, actions: seq<Action>)
    requires !c.spec.notClaim && Rank(Effective(c.status)) <= 2
    requires forall i :: 0 <= i < |actions| ==> AsksForClaims(actions[i]) && PlainNodes(actions[i])
    requires Run(Init(c, disks, claims), actions).Some?
    requires Run(Init(c, disks, claims), actions).value.stored.status.phase == CreatedLDC
    ensures SomeListingClaimed(Init(c, disks, claims), actions, Run(Init(c, disks, claims), actions).value.made)
  {
    ClaimsFirstInRun(c, disks, claims, actions);
  }

  // ---------- and only available disks are claimed ----------

  predicate Available(d: Disk) {
    d.state == "Available" && !d.reserved
  }

  /** The claim is for the disk it came from, and that was free when it was listed. */
  predicate ClaimedRightly(m: Made) {
    && Available(m.origin) && m.claim.node == m.origin.node && m.claim.diskType == m.origin.diskType
    && m.claim.name == m.origin.node + "-" + ToLower(m.origin.diskType) + "-claim"
  }

  ghost predicate AllRightly(w: World) {
    && (forall i :: 0 <= i < |w.made| ==> ClaimedRightly(w.made[i]))
    && (w.worker.Claiming? ==> forall d :: d in w.worker.disks ==> Available(d))
  }

  lemma RightlyStep(w: World, a: Action)
    requires AllRightly(w) && Enabled(w, a)
    ensures AllRightly(Apply(w, a))
  {
    if a.ClaimNext? && w.worker.next < |ClaimsFor(w.worker.disks)| {
      ClaimOfWitness(w.worker.disks, w.worker.next);
      var d := w.worker.disks[Witnesses(w.worker.disks)[w.worker.next]];
      assert "-" + "claim" == "-claim";
      assert d.node + "-" + ToLower(d.diskType) + "-" + "claim" == d.node + "-" + ToLower(d.diskType) + "-claim";
    }
  }

  lemma {:induction false} OnlyAvailableClaimed(c: Cluster, disks: map<string, Disk>, claims: set<string>,
                                                actions: seq<Action>)
    requires Run(Init(c, disks, claims), actions).Some?
    ensures AllRightly(Run(Init(c, disks, claims), actions).value)
  {
    if actions != [] {
      OnlyAvailableClaimed(c, disks, claims, Front(actions));
      RightlyStep(Run(Init(c, disks, claims), Front(actions)).value, Last(actions));
    }
  }
}
