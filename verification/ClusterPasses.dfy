/** Runs of the install phases put together, and the passes of the worker in them. */
module ClusterPasses {
  import opened Sequences
  import opened Wrappers
  import opened ClusterPhases

  lemma RunNext(start: World, actions: seq<Action>, k: nat, w: World)
    requires k < |actions| && Run(start, actions[..k]) == Some(w) && Enabled(w, actions[k])
    ensures Run(start, actions[..k + 1]) == Some(Apply(w, actions[k]))
  {
    FrontOfPrefix(actions, k);
  }

  lemma {:induction false} RunConcat(start: World, first: seq<Action>, more: seq<Action>)
    requires Run(start, first).Some?
    ensures Run(start, first + more) == Run(Run(start, first).value, more)
  {
    if more == [] {
      assert first + more == first;
    } else {
      assert Front(first + more) == first + Front(more) && Last(first + more) == Last(more);
      RunConcat(start, first, Front(more));
    }
  }

  /** One pass of the worker up to the phase switch, every call succeeding. */
  const PASS: seq<Action> := [Get(true), WriteInstalled(true, Done), Components(true, true, true)]

  /** After a restart a first pass only resets the mark of the CRDs. */
  predicate FirstPass(w: World) {
    w.cachedGeneration == 0 && w.stored.status.installed
  }

  function ResetCRDs(w: World): seq<Action> {
    if FirstPass(w) then [Get(true), WriteInstalled(true, Done)] else []
  }

  lemma InstallPasses(w: World)
    requires w.worker.Idle? && !FirstPass(w)
    ensures var w' := Run(w, PASS[..2]);
            && w'.Some? && w'.value.worker.Installed? && w'.value.settings == w.settings
            && w'.value.worker.c.spec == w.stored.spec
            && w'.value.worker.c.status == w.stored.status.(installed := true)
            && w'.value.stored == w'.value.worker.c
            && w'.value.disks == w.disks && w'.value.claims == w.claims
            && w'.value.cachedGeneration == w.cachedGeneration
  {
    RunNext(w, PASS, 0, w);
    RunNext(w, PASS, 1, Apply(w, PASS[0]));
  }

  /** A pass takes the worker to the phase switch, with nothing changed but the mark of the CRDs. */
  lemma PassReaches(w: World)
    requires w.worker.Idle? && !FirstPass(w)
    ensures var w' := Run(w, PASS);
            && w'.Some? && w'.value.worker == AtPhase(w'.value.stored, true)
            && w'.value.stored.spec == w.stored.spec
            && w'.value.stored.status == w.stored.status.(installed := true)
            && w'.value.disks == w.disks && w'.value.claims == w.claims
            && w'.value.cachedGeneration == w.cachedGeneration
  {
    InstallPasses(w);
    RunNext(w, PASS, 2, Run(w, PASS[..2]).value);
    assert PASS[..3] == PASS;
  }

  lemma ResetPasses(w: World)
    requires w.worker.Idle?
    ensures var w' := Run(w, ResetCRDs(w));
            && w'.Some? && w'.value.worker.Idle? && !FirstPass(w'.value) && w'.value.settings == w.settings
            && w'.value.stored.spec == w.stored.spec
            && w'.value.stored.status == w.stored.status.(installed := w'.value.stored.status.installed)
            && w'.value.disks == w.disks && w'.value.claims == w.claims
  {
    if FirstPass(w) {
      var actions := [Get(true), WriteInstalled(true, Done)];
      RunNext(w, actions, 0, w);
      RunNext(w, actions, 1, Apply(w, actions[0]));
      assert actions[..2] == actions;
    }
  }

  /** From rest to the phase switch, whether or not the mark of the CRDs is to be removed first. */
  lemma WholePass(w: World)
    requires w.worker.Idle?
    ensures var w' := Run(w, ResetCRDs(w) + PASS);
            && w'.Some? && w'.value.worker == AtPhase(w'.value.stored, true)
            && w'.value.stored.spec == w.stored.spec
            && w'.value.stored.status == w.stored.status.(installed := true)
            && w'.value.disks == w.disks && w'.value.claims == w.claims
  {
    ResetPasses(w);
    RunConcat(w, ResetCRDs(w), PASS);
    PassReaches(Run(w, ResetCRDs(w)).value);
  }
}
