/** A new Cluster is installed: the run in which every call succeeds takes it from its unset phase
    to CreatedLDC, reserving the disks its rules name and claiming the others
    (controllers/cluster_controller.go:575-636). */
module ClusterInstall {
  import opened Sequences
  import opened Wrappers
  import opened LocalDisks
  import opened ClusterPhases
  import opened ClusterPhaseLaws
  import opened ClusterPasses
  import opened ClusterClaims

  // ---------- listings ----------

  /** Disks are stored under their own names. */
  ghost predicate Keyed(disks: map<string, Disk>) {
    forall name :: name in disks ==> disks[name].name == name
  }

  ghost predicate ListingOf(listed: seq<Disk>, disks: map<string, Disk>) {
    && Lists(listed, disks)
    && (forall name :: name in disks ==> exists i :: 0 <= i < |listed| && listed[i].name == name)
  }

  lemma {:induction false} SomeListing(disks: map<string, Disk>) returns (listed: seq<Disk>)
    requires Keyed(disks)
    ensures ListingOf(listed, disks)
    decreases |disks|
  {
    if disks == map[] {
      listed := [];
    } else {
      var name :| name in disks;
      var others := disks - {name};
      assert |others| < |disks| by {
        assert others.Keys == disks.Keys - {name};
      }
      var before := SomeListing(others);
      listed := before + [disks[name]];
      OneMoreListed(before, disks, name);
    }
  }

  lemma OneMoreListed(before: seq<Disk>, disks: map<string, Disk>, name: string)
    requires Keyed(disks) && name in disks && ListingOf(before, disks - {name})
    ensures ListingOf(before + [disks[name]], disks)
  {
    var listed := before + [disks[name]];
    assert listed[|before|] == disks[name];
    forall x | x in disks
      ensures exists i :: 0 <= i < |listed| && listed[i].name == x
    {
      if x == name {
        assert listed[|before|].name == x;
      } else {
        assert x in disks - {name};
        var i :| 0 <= i < |before| && before[i].name == x;
        assert listed[i].name == x;
      }
    }
  }

  // ---------- the pass that reserves ----------

  function ReserveSteps(k: nat): seq<Action> {
    if k == 0 then [] else ReserveSteps(k - 1) + [ReserveNext(Done)]
  }

  /** The worker has gone through the first k listed disks, and nobody else has done anything. */
  ghost predicate ReservedTo(w: World, k: nat, end: Option<World>)
    requires w.worker.Reserving?
  {
    var listed, rules := w.worker.listed, w.worker.c.spec.rules;
    && end.Some? && end.value.stored == w.stored && end.value.claims == w.claims
    && (k <= |listed| ==> && end.value.worker == Reserving(w.worker.c, listed, k)
                          && end.value.disks == ReservedUpTo(w.disks, listed, k, rules))
    && (k == |listed| + 1 ==> && end.value.worker == Writing(WithPhase(w.worker.c, Reserved))
                              && end.value.disks == ReservedUpTo(w.disks, listed, |listed|, rules))
  }

  lemma ReserveOnce(w: World, k: nat, now: World)
    requires w.worker.Reserving? && Lists(w.worker.listed, w.disks) && k <= |w.worker.listed|
    requires ReservedTo(w, k, Some(now))
    ensures ReservedTo(w, k + 1, Some(ReserveStep(now, Done)))
  {
    var listed, rules := w.worker.listed, w.worker.c.spec.rules;
    if k < |listed| {
      ListedReserved(w.disks, listed, k, rules, listed[k], k);
    }
  }

  lemma ReservesNext(w: World, k: nat)
    requires Run(w, ReserveSteps(k)).Some? && Run(w, ReserveSteps(k)).value.worker.Reserving?
    ensures Run(w, ReserveSteps(k + 1)) == Some(ReserveStep(Run(w, ReserveSteps(k)).value, Done))
  {
    FrontOfSnoc(ReserveSteps(k), ReserveNext(Done));
  }

  lemma {:induction false} ReservePass(w: World, k: nat)
    requires w.worker.Reserving? && w.worker.next == 0
    requires Lists(w.worker.listed, w.disks) && k <= |w.worker.listed| + 1
    ensures ReservedTo(w, k, Run(w, ReserveSteps(k)))
  {
    if k > 0 {
      ReservePass(w, k - 1);
      ReservesNext(w, k - 1);
      ReserveOnce(w, k - 1, Run(w, ReserveSteps(k - 1)).value);
    }
  }

  // ---------- three passes ----------

  predicate Between(w: World, p: Phase) {
    w.worker == Idle && w.stored.status.phase == p
  }

  /** The worker writes what it carries, which is up to date. */
  lemma WriteEnds(w: World, c: Cluster)
    requires w.worker == Writing(c) && c.version == w.stored.version && c.spec == w.stored.spec
    ensures Run(w, [WriteStatus(Done)]).Some?
    ensures var w' := Run(w, [WriteStatus(Done)]).value;
            && w'.worker == Idle && w'.stored.status == c.status && w'.stored.spec == w.stored.spec
            && w'.disks == w.disks && w'.claims == w.claims
  {
    RunNext(w, [WriteStatus(Done)], 0, w);
    assert [WriteStatus(Done)][..1] == [WriteStatus(Done)];
  }

  /** From w, these actions lead to w', with every call succeeding and the specification left alone. */
  ghost predicate Leads(w: World, actions: seq<Action>, w': World) {
    Run(w, actions) == Some(w') && w'.stored.spec == w.stored.spec && AllSucceed(actions)
  }

  predicate Succeeds(a: Action) {
    match a
    case Get(ok) => ok
    case WriteInstalled(crds, o) => crds && o == Done
    case Components(_, ok, healthy) => ok && healthy
    case List(ok, listed) => ok
    case ReserveNext(o) => o == Done
    case ClaimNext(o) => o == Done
    case WriteStatus(o) => o == Done
    case _ => false
  }

  /** Only the worker acts, and its calls succeed. */
  ghost predicate AllSucceed(actions: seq<Action>) {
    forall i :: 0 <= i < |actions| ==> Succeeds(actions[i])
  }

  lemma LeadsOn(w: World, first: seq<Action>, between: World, more: seq<Action>, w': World)
    requires Leads(w, first, between) && Leads(between, more, w')
    ensures Leads(w, first + more, w')
  {
    RunConcat(w, first, more);
  }

  lemma Passes(w: World) returns (actions: seq<Action>, w': World)
    requires w.worker == Idle
    ensures Leads(w, actions, w') && w'.worker == AtPhase(w'.stored, true)
    ensures w'.stored.status == w.stored.status.(installed := true)
    ensures w'.disks == w.disks && w'.claims == w.claims
    ensures forall i :: 0 <= i < |actions| ==> !actions[i].List?
  {
    WholePass(w);
    actions, w' := ResetCRDs(w) + PASS, Run(w, ResetCRDs(w) + PASS).value;
  }

  lemma WritesPhase(w: World, c: Cluster) returns (w': World)
    requires w.worker == Writing(c) && c.version == w.stored.version && c.spec == w.stored.spec
    ensures Leads(w, [WriteStatus(Done)], w') && Between(w', c.status.phase) && w'.stored.status == c.status
    ensures w'.disks == w.disks && w'.claims == w.claims
  {
    WriteEnds(w, c);
    w' := Run(w, [WriteStatus(Done)]).value;
  }

  lemma FirstPassEnds(w: World) returns (actions: seq<Action>, w': World)
    requires Between(w, Unset) && w.stored.status.legacy == Unset
    ensures Leads(w, actions, w') && Between(w', ToReserve) && w'.disks == w.disks && w'.claims == w.claims
    ensures forall i :: 0 <= i < |actions| ==> PlainNodes(actions[i])
  {
    var first, passed := Passes(w);
    w' := WritesPhase(passed, passed.worker.c);
    LeadsOn(w, first, passed, [WriteStatus(Done)], w');
    actions := first + [WriteStatus(Done)];
  }

  lemma ListsOnce(w: World, listed: seq<Disk>)
    requires (w.worker.ReserveListing? || w.worker.ClaimListing?) && ListingOf(listed, w.disks)
    ensures Leads(w, [List(true, listed)], Apply(w, List(true, listed)))
  {
    RunNext(w, [List(true, listed)], 0, w);
    assert [List(true, listed)][..1] == [List(true, listed)];
  }

  lemma {:induction false} ReserveStepsSucceed(k: nat)
    ensures AllSucceed(ReserveSteps(k)) && forall i :: 0 <= i < |ReserveSteps(k)| ==> !ReserveSteps(k)[i].List?
  {
    if k > 0 {
      ReserveStepsSucceed(k - 1);
    }
  }

  lemma {:induction false} ClaimStepsSucceed(k: nat)
    ensures AllSucceed(ClaimSteps(k)) && forall i :: 0 <= i < |ClaimSteps(k)| ==> !ClaimSteps(k)[i].List?
  {
    if k > 0 {
      ClaimStepsSucceed(k - 1);
    }
  }

  /** Reserving, from the listing on. */
  lemma ReservesAll(w: World, listed: seq<Disk>) returns (actions: seq<Action>, w': World)
    requires w.worker.ReserveListing? && w.worker.c.version == w.stored.version && w.worker.c.spec == w.stored.spec
    requires ListingOf(listed, w.disks)
    ensures Leads(w, actions, w') && Between(w', Reserved) && w'.claims == w.claims
    ensures w'.stored.status == w.worker.c.status.(phase := Reserved)
    ensures w'.disks == ReservedUpTo(w.disks, listed, |listed|, w.stored.spec.rules)
    ensures forall i :: 0 <= i < |actions| ==> (actions[i].List? ==> actions[i].listed == listed)
  {
    var n := |listed| + 1;
    ListsOnce(w, listed);
    var listing := Apply(w, List(true, listed));
    ReservePass(listing, n);
    ReserveStepsSucceed(n);
    var gone := Run(listing, ReserveSteps(n)).value;
    w' := WritesPhase(gone, gone.worker.c);
    LeadsOn(w, [List(true, listed)], listing, ReserveSteps(n), gone);
    LeadsOn(w, [List(true, listed)] + ReserveSteps(n), gone, [WriteStatus(Done)], w');
    actions := [List(true, listed)] + ReserveSteps(n) + [WriteStatus(Done)];
  }

  /** Claiming, from the listing on. */
  lemma ClaimsAll(w: World, listed: seq<Disk>) returns (actions: seq<Action>, w': World)
    requires w.worker.ClaimListing? && w.worker.c.version == w.stored.version && w.worker.c.spec == w.stored.spec
    requires ListingOf(listed, w.disks) && AllNew(ClaimsFor(Sifted(listed)), w.claims)
    ensures Leads(w, actions, w') && Between(w', CreatedLDC) && w'.disks == w.disks
    ensures forall i :: 0 <= i < |actions| ==> (actions[i].List? ==> actions[i].listed == listed)
  {
    var n := |ClaimsFor(Sifted(listed))| + 1;
    ListsOnce(w, listed);
    var listing := Apply(w, List(true, listed));
    ClaimPrefix(listing, n);
    ClaimStepsSucceed(n);
    var gone := Run(listing, ClaimSteps(n)).value;
    w' := WritesPhase(gone, gone.worker.c);
    LeadsOn(w, [List(true, listed)], listing, ClaimSteps(n), gone);
    LeadsOn(w, [List(true, listed)] + ClaimSteps(n), gone, [WriteStatus(Done)], w');
    actions := [List(true, listed)] + ClaimSteps(n) + [WriteStatus(Done)];
  }

  // ---------- the whole installation ----------

  /** Node names have no ':', disk types no '-', and types do not differ by case alone. */
  ghost predicate PlainDisks(disks: map<string, Disk>) {
    && (forall name :: name in disks ==> ':' !in disks[name].node && '-' !in disks[name].diskType)
    && (forall a, b :: a in disks && b in disks && ToLower(disks[a].diskType) == ToLower(disks[b].diskType) ==>
          disks[a].diskType == disks[b].diskType)
  }

  predicate Named(d: Disk, rules: seq<ReserveRule>) {
    exists rule :: rule in rules && rule.node == d.node && d.path in rule.devices
  }

  /** After the reservation every disk is as before, but reserved if a rule names it. */
  ghost predicate ReservedByRules(disks: map<string, Disk>, rules: seq<ReserveRule>, after: map<string, Disk>) {
    && after.Keys == disks.Keys
    && forall name :: name in disks ==>
         after[name] == if Named(disks[name], rules)
                        then disks[name].(reserved := true, version := disks[name].version + 1) else disks[name]
  }

  lemma ReservingIsExact(disks: map<string, Disk>, listed: seq<Disk>, rules: seq<ReserveRule>)
    requires ListingOf(listed, disks)
    ensures ReservedByRules(disks, rules, ReservedUpTo(disks, listed, |listed|, rules))
  {
    var after := ReservedUpTo(disks, listed, |listed|, rules);
    forall name
      ensures name in after <==> name in disks
      ensures name in disks ==>
                after[name] == if Named(disks[name], rules)
                               then disks[name].(reserved := true, version := disks[name].version + 1) else disks[name]
    {
      ReservationExact(disks, listed, |listed|, rules, name);
      if name in disks {
        var i :| 0 <= i < |listed| && listed[i].name == name;
        assert disks[name] == listed[i];
      }
    }
  }

  lemma ReservedStaysPlain(disks: map<string, Disk>, rules: seq<ReserveRule>, after: map<string, Disk>)
    requires Keyed(disks) && PlainDisks(disks) && ReservedByRules(disks, rules, after)
    ensures Keyed(after) && PlainDisks(after)
  {
  }

  lemma ListedClaimsNew(listed: seq<Disk>, disks: map<string, Disk>)
    requires PlainDisks(disks) && ListingOf(listed, disks)
    ensures AllNew(ClaimsFor(Sifted(listed)), {})
    ensures PlainNodes(List(true, listed))
  {
    var free := Sifted(listed);
    forall d | d in listed
      ensures d.name in disks && disks[d.name] == d
    {
      var i :| 0 <= i < |listed| && listed[i] == d;
    }
    forall k, l | 0 <= k < l < |ClaimsFor(free)|
      ensures ClaimsFor(free)[k].name != ClaimsFor(free)[l].name
    {
      ClaimNamesDistinct(free, k, l);
    }
  }

  lemma LastTwoPasses(w: World) returns (actions: seq<Action>, w': World)
    requires Between(w, ToReserve) && !w.stored.spec.notClaim && w.claims == {} && Keyed(w.disks) && PlainDisks(w.disks)
    ensures Leads(w, actions, w') && Between(w', CreatedLDC)
    ensures ReservedByRules(w.disks, w.stored.spec.rules, w'.disks)
    ensures forall i :: 0 <= i < |actions| ==> PlainNodes(actions[i])
  {
    var listed := SomeListing(w.disks);
    ListedClaimsNew(listed, w.disks);
    var first, passed := Passes(w);
    var reserving, reserved := ReservesAll(passed, listed);
    ReservingIsExact(w.disks, listed, w.stored.spec.rules);
    ReservedStaysPlain(w.disks, w.stored.spec.rules, reserved.disks);
    LeadsOn(w, first, passed, reserving, reserved);
    var rest := LastPass(reserved);
    w' := Run(reserved, rest).value;
    LeadsOn(w, first + reserving, reserved, rest, w');
    actions := first + reserving + rest;
  }

  lemma LastPass(w: World) returns (actions: seq<Action>)
    requires Between(w, Reserved) && !w.stored.spec.notClaim && w.claims == {} && Keyed(w.disks) && PlainDisks(w.disks)
    ensures Run(w, actions).Some? && Leads(w, actions, Run(w, actions).value)
    ensures Between(Run(w, actions).value, CreatedLDC) && Run(w, actions).value.disks == w.disks
    ensures forall i :: 0 <= i < |actions| ==> PlainNodes(actions[i])
  {
    var listed := SomeListing(w.disks);
    ListedClaimsNew(listed, w.disks);
    var first, passed := Passes(w);
    var claiming, claimed := ClaimsAll(passed, listed);
    LeadsOn(w, first, passed, claiming, claimed);
    actions := first + claiming;
  }

  /** A new Cluster that asks for claims, over any disks and no claims: with every call of the worker
      succeeding it reaches CreatedLDC, with exactly the disks that its rules name reserved and
      nothing else changed about any disk, and with a claim made for every other available disk. */
  lemma NewClusterInstalls(c: Cluster, disks: map<string, Disk>) returns (actions: seq<Action>)
    requires c.status.phase == Unset && c.status.legacy == Unset && !c.spec.notClaim
    requires Keyed(disks) && PlainDisks(disks)
    ensures AllSucceed(actions) && Run(Init(c, disks, {}), actions).Some?
    ensures var w := Run(Init(c, disks, {}), actions).value;
            && w.stored.status.phase == CreatedLDC
            && ReservedByRules(disks, c.spec.rules, w.disks)
            && SomeListingClaimed(Init(c, disks, {}), actions, w.made)
  {
    var start := Init(c, disks, {});
    var first, begun := FirstPassEnds(start);
    var rest, end := LastTwoPasses(begun);
    LeadsOn(start, first, begun, rest, end);
    actions := first + rest;
    forall i | 0 <= i < |actions|
      ensures AsksForClaims(actions[i]) && PlainNodes(actions[i])
    {
      assert Succeeds(actions[i]);
    }
    CreatedMeansClaimed(c, disks, {}, actions);
  }
}
