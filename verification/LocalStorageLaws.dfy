/** Convergence of the DaemonSet update, and its agreement with a fresh build. */
module LocalStorageLaws {
  import opened Sequences
  import opened Wrappers
  import opened MemberEnv
  import opened MemberEnvLaws
  import opened EnvExpansion
  import opened MigrateCheck
  import opened LocalStorage

  ghost predicate Valid(cfg: Configuration) {
    WantedEnv(cfg).Ok? && CheckSetting(cfg.migrateCheck).Ok?
  }

  /** What the update makes of a live DaemonSet under a valid configuration. */
  function Target(ds: DaemonSet, cfg: Configuration): DaemonSet
    requires WantedEnv(cfg).Ok?
  {
    Updated(ds, cfg, WantedEnv(cfg).value, Check(cfg))
  }

  // ---------- one container ----------

  lemma UpToDateTwice(c: Container, cfg: Configuration, wanted: seq<EnvVar>, check: string)
    ensures UpToDate(UpToDate(c, cfg, wanted, check), cfg, wanted, check) == UpToDate(c, cfg, wanted, check)
  {
    MergeIdempotent(c.env, wanted);
    LastCheckWins(c.args, check, check);
  }

  /** A container needs nothing exactly when its managed fields already read as configured. */
  lemma NothingToDo(c: Container, cfg: Configuration, wanted: seq<EnvVar>, check: string)
    ensures UpToDate(c, cfg, wanted, check) == c <==>
            && (c.name == MEMBER ==>
                  && Only(c.env, Names(wanted)) == wanted
                  && c.args != [] && Last(c.args) == FLAG_ASSIGNED + check && NoneManaged(Front(c.args))
                  && c.image == cfg.memberImage.Reference())
            && (c.name == REGISTRAR ==> c.image == cfg.registrarImage.Reference())
  {
    MergeFixedPoint(c.env, wanted);
    CheckFixedPoint(c.args, check);
  }

  // ---------- the whole DaemonSet ----------

  /** Updating is done in one step: a second pass finds nothing left to change. */
  lemma UpdateConverges(ds: DaemonSet, cfg: Configuration)
    requires Valid(cfg)
    ensures Target(Target(ds, cfg), cfg) == Target(ds, cfg)
  {
    var wanted, check := WantedEnv(cfg).value, Check(cfg);
    forall i | 0 <= i < |ds.containers|
      ensures UpToDate(UpToDate(ds.containers[i], cfg, wanted, check), cfg, wanted, check) ==
              UpToDate(ds.containers[i], cfg, wanted, check)
    {
      UpToDateTwice(ds.containers[i], cfg, wanted, check);
    }
    assert Target(Target(ds, cfg), cfg).containers == Target(ds, cfg).containers;
  }

  /** The same through the reconcile step itself, whatever was live before. */
  method UpdateTwice(cfg: Configuration, live: DaemonSet) returns (again: bool, first: DaemonSet, second: DaemonSet)
    requires Valid(cfg)
    ensures !again && second == first == Target(live, cfg)
  {
    var changed, error;
    changed, first, error := NeedOrNotToUpdate(cfg, live);
    again, second, error := NeedOrNotToUpdate(cfg, first);
    UpdateConverges(live, cfg);
  }

  /** Only the managed fields of the member and registrar containers may move. */
  lemma UpdateTouchesOnlyManagedFields(ds: DaemonSet, cfg: Configuration, i: nat)
    requires Valid(cfg) && i < |ds.containers|
    ensures Target(ds, cfg).rest == ds.rest && |Target(ds, cfg).containers| == |ds.containers|
    ensures var was, now := ds.containers[i], Target(ds, cfg).containers[i];
            && now.name == was.name && now.mounts == was.mounts && now.resources == was.resources
            && (was.name != MEMBER ==> now.env == was.env && now.args == was.args)
            && (was.name !in {MEMBER, REGISTRAR} ==> now == was)
  {
  }

  lemma TemplateArgsUnmanaged()
    ensures NoneManaged(TEMPLATE_ARGS)
  {
    assert TEMPLATE_ARGS[0][2] == 'n' && TEMPLATE_ARGS[1][2] == 'n' && TEMPLATE_ARGS[2][2] == 'c';
    assert TEMPLATE_ARGS[3][2] == 'h' && TEMPLATE_ARGS[4][2] == 'v' && TEMPLATE_ARGS[6][2] == 's';
    assert TEMPLATE_ARGS[5][3] == 'a' && FLAG[3] == 'i' && FLAG_ASSIGNED[3] == 'i';
    assert FLAG[2] == FLAG_ASSIGNED[2] == 'm';
  }

  lemma FreshMemberUpToDate(cfg: Configuration, wanted: seq<EnvVar>, check: string)
    ensures var member := FreshMember(TEMPLATE[1], cfg, wanted, check);
            UpToDate(member, cfg, wanted, check) == member
  {
    var member := FreshMember(TEMPLATE[1], cfg, wanted, check);
    OnlyOfOwnNames(wanted, Names(wanted));
    ForeignUnmanaged(TEMPLATE_ARGS, |TEMPLATE_ARGS|);
    assert Front(member.args) == ForeignArgs(TEMPLATE_ARGS, |TEMPLATE_ARGS|);
    NothingToDo(member, cfg, wanted, check);
  }

  lemma FreshRegistrarUpToDate(cfg: Configuration, wanted: seq<EnvVar>, check: string)
    ensures var registrar := FreshRegistrar(TEMPLATE[0], cfg);
            UpToDate(registrar, cfg, wanted, check) == registrar
  {
  }

  /** A freshly built DaemonSet is already what the update would make of it. */
  lemma FreshIsUpToDate(cfg: Configuration, rest: string)
    requires Valid(cfg)
    ensures Fresh(cfg, rest).Ok? && Target(Fresh(cfg, rest).value, cfg) == Fresh(cfg, rest).value
  {
    var wanted, check, ds := WantedEnv(cfg).value, Check(cfg), Fresh(cfg, rest).value;
    FreshMemberUpToDate(cfg, wanted, check);
    FreshRegistrarUpToDate(cfg, wanted, check);
    assert Target(ds, cfg).containers == ds.containers;
  }

  /** Whatever member container is live, the update gives it the configured environment, the
      check flag and the image of a fresh build, and every configured variable with closed
      references the value it would have there. */
  lemma UpdateAgreesWithFresh(live: Container, cfg: Configuration, names: set<string>,
                              service: map<string, string>, selected: string -> string)
    requires Valid(cfg) && live.name == MEMBER
    requires names <= Names(WantedEnv(cfg).value) && Closed(WantedEnv(cfg).value, names)
    ensures var wanted := WantedEnv(cfg).value;
            var updated := UpToDate(live, cfg, wanted, Check(cfg));
            var built := FreshMember(TEMPLATE[1], cfg, wanted, Check(cfg));
            && Only(updated.env, Names(wanted)) == built.env
            && Last(updated.args) == Last(built.args) == FLAG_ASSIGNED + Check(cfg)
            && NoneManaged(Front(updated.args)) && Front(built.args) == TEMPLATE_ARGS
            && updated.image == built.image
            && Agree(Expand(updated.env, service, selected), Expand(built.env, service, selected), names)
  {
    var wanted := WantedEnv(cfg).value;
    MergeInterleaves(live.env, wanted);
    ForeignUnmanaged(live.args, |live.args|);
    TemplateArgsUnmanaged();
    assert TEMPLATE_ARGS[..|TEMPLATE_ARGS|] == TEMPLATE_ARGS;
    ForeignKeepsAll(TEMPLATE_ARGS, |TEMPLATE_ARGS|);
    ExpansionUndisturbed(live.env, wanted, names, service, selected);
    FrontOfSnoc(ForeignArgs(live.args, |live.args|), FLAG_ASSIGNED + Check(cfg));
    FrontOfSnoc(TEMPLATE_ARGS, FLAG_ASSIGNED + Check(cfg));
  }

  // ---------- what the texts are ----------

  /** A configuration can be applied exactly if its annotation decodes and its check setting is unset
      or one of the two switches. */
  lemma ValidExactly(cfg: Configuration)
    ensures Valid(cfg) <==> !cfg.extraEnv.Malformed? && cfg.migrateCheck in {"", "true", "false"}
  {
    SettingExactly([], cfg.migrateCheck);
  }

  function ImageText(image: ImageSpec): string {
    image.registry + "/" + image.repository + ":" + image.tag
  }

  function FlagText(cfg: Configuration): string {
    if cfg.migrateCheck == "false" then "--migrate-check=false" else "--migrate-check=true"
  }

  /** The desired environment: where the pod runs, the CSI endpoint, the image for migrations, and
      the version, unless the extra environment, which comes last, has one. */
  lemma WantedReads(cfg: Configuration)
    requires !cfg.extraEnv.Malformed?
    ensures WantedEnv(cfg).Ok?
    ensures var extra := if cfg.extraEnv.Declared? then cfg.extraEnv.env else [];
            var version := if cfg.juiceFSVersion == "" then "1.2.0" else cfg.juiceFSVersion;
            WantedEnv(cfg).value == [
              EnvVar("POD_NAME", ValueFrom("metadata.name")),
              EnvVar("MY_NODENAME", ValueFrom("spec.nodeName")),
              EnvVar("POD_NAMESPACE", ValueFrom("metadata.namespace")),
              EnvVar("NODE_ANNOTATION_KEY_STORAGE_IPV4", Value([Literal("localstorage.hwameistor.io/storage-ipv4")])),
              EnvVar("CSI_ENDPOINT",
                     Value([Literal("unix:/" + cfg.kubeletRootDir + "/plugins/lvm.hwameistor.io/csi.sock")])),
              EnvVar("MIGRAGE_JUICESYNC_IMAGE", Value([Literal(ImageText(cfg.juicesyncImage))]))
            ] + (if exists i :: 0 <= i < |extra| && extra[i].name == "JUICEFS_VERSION" then []
                 else [EnvVar("JUICEFS_VERSION", Value([Literal(version)]))]) + extra
  {
    var extra := if cfg.extraEnv.Declared? then cfg.extraEnv.env else [];
    if JUICEFS_VERSION in Names(extra) {
      var i := NameIndex(extra, JUICEFS_VERSION);
    } else if i :| 0 <= i < |extra| && extra[i].name == "JUICEFS_VERSION" {
      NameAt(extra, i);
    }
  }

  /** What is built: the two containers with the images, resources and directories of the
      configuration, each its own. */
  lemma BuiltReads(cfg: Configuration, rest: string)
    requires Valid(cfg)
    ensures Fresh(cfg, rest).Ok? && |Fresh(cfg, rest).value.containers| == 2 && Fresh(cfg, rest).value.rest == rest
    ensures var registrar := Fresh(cfg, rest).value.containers[0];
            && registrar.name == "registrar" && registrar.image == ImageText(cfg.registrarImage)
            && registrar.resources == cfg.registrarResources
            && registrar.env == [EnvVar("KUBE_NODE_NAME", ValueFrom("spec.nodeName"))]
            && registrar.args == ["--v=5", "--csi-address=/csi/csi.sock",
                                  "--kubelet-registration-path=" + cfg.kubeletRootDir +
                                  "/plugins/lvm.hwameistor.io/csi.sock"]
            && registrar.mounts == [Mount("socket-dir", "/csi"), Mount("registration-dir", "/registration")]
    ensures var member := Fresh(cfg, rest).value.containers[1];
            && member.name == "member" && member.image == ImageText(cfg.memberImage)
            && member.resources == cfg.memberResources && member.env == WantedEnv(cfg).value
            && member.args == TEMPLATE_ARGS + [FlagText(cfg)]
            && member.mounts == [
                 Mount("host-dev", "/dev"), Mount("host-etc-drbd", "/etc/drbd.d"),
                 Mount("ssh-dir", "/root/.ssh"), Mount("host-mnt", "/mnt"),
                 Mount("plugin-dir", cfg.kubeletRootDir + "/plugins"),
                 Mount("registration-dir", cfg.kubeletRootDir + "/plugins_registry"),
                 Mount("pods-mount-dir", cfg.kubeletRootDir + "/pods")]
  {
    SettingExactly(TEMPLATE_ARGS, cfg.migrateCheck);
    TemplateArgsUnmanaged();
    assert TEMPLATE_ARGS[..|TEMPLATE_ARGS|] == TEMPLATE_ARGS;
    ForeignKeepsAll(TEMPLATE_ARGS, |TEMPLATE_ARGS|);
    FrontOfSnoc(TEMPLATE_ARGS, FLAG_ASSIGNED + Check(cfg));
  }

  /** What an update makes of each container: the member gets its image and the flag, the registrar
      its image. */
  lemma UpdateReads(ds: DaemonSet, cfg: Configuration, i: nat)
    requires Valid(cfg) && i < |ds.containers|
    ensures var was, now := ds.containers[i], Target(ds, cfg).containers[i];
            && (was.name == "member" ==> now.image == ImageText(cfg.memberImage) && Ends(now.args, FlagText(cfg)))
            && (was.name == "registrar" ==> now.image == ImageText(cfg.registrarImage))
  {
    SettingExactly(ds.containers[i].args, cfg.migrateCheck);
  }

  // ---------- the version variable ----------

  lemma VersionNotOperator(cfg: Configuration)
    ensures JUICEFS_VERSION !in Names(OperatorEnv(cfg))
  {
    var env := OperatorEnv(cfg);
    if JUICEFS_VERSION in Names(env) {
      var i := NameIndex(env, JUICEFS_VERSION);
      assert false;
    }
  }

  /** However many version entries are live, afterwards they are those of the extra
      environment, or the single default of the operator when it has none. */
  lemma VersionEntries(live: seq<EnvVar>, cfg: Configuration)
    requires WantedEnv(cfg).Ok?
    ensures var extra := ExtraEnv(cfg).value;
            Only(Merge(live, WantedEnv(cfg).value), {JUICEFS_VERSION}) ==
            if JUICEFS_VERSION in Names(extra) then Only(extra, {JUICEFS_VERSION})
            else [Plain("JUICEFS_VERSION", if cfg.juiceFSVersion == "" then "1.2.0" else cfg.juiceFSVersion)]
    ensures var extra, wanted := ExtraEnv(cfg).value, WantedEnv(cfg).value;
            |extra| <= |wanted| && wanted[|wanted| - |extra|..] == extra
  {
    var extra, wanted := ExtraEnv(cfg).value, WantedEnv(cfg).value;
    var version := Plain(JUICEFS_VERSION, MigrationVersion(cfg));
    var middle := if JUICEFS_VERSION in Names(extra) then [] else [version];
    VersionNotOperator(cfg);
    OnlyOfOtherNames(OperatorEnv(cfg), {JUICEFS_VERSION});
    OnlyConcat(OperatorEnv(cfg), middle, {JUICEFS_VERSION});
    OnlyConcat(OperatorEnv(cfg) + middle, extra, {JUICEFS_VERSION});
    NamesConcat(OperatorEnv(cfg), middle);
    NamesConcat(OperatorEnv(cfg) + middle, extra);
    assert Only([version], {JUICEFS_VERSION}) == [version] && Names([version]) == {JUICEFS_VERSION};
    if JUICEFS_VERSION !in Names(extra) {
      OnlyOfOtherNames(extra, {JUICEFS_VERSION});
    }
    MergeByName(live, wanted, JUICEFS_VERSION);
  }

  // ---------- whole runs ----------

  ghost predicate AllValid(cfgs: seq<Configuration>) {
    cfgs == [] || (AllValid(Front(cfgs)) && Valid(Last(cfgs)))
  }

  ghost function UpdateAll(c: Container, cfgs: seq<Configuration>): Container
    requires AllValid(cfgs)
  {
    if cfgs == [] then c
    else UpToDate(UpdateAll(c, Front(cfgs)), Last(cfgs), WantedEnv(Last(cfgs)).value, Check(Last(cfgs)))
  }

  ghost function WantedEnvs(cfgs: seq<Configuration>): seq<seq<EnvVar>>
    requires AllValid(cfgs)
  {
    if cfgs == [] then [] else WantedEnvs(Front(cfgs)) + [WantedEnv(Last(cfgs)).value]
  }

  /** Any run of configurations leaves a member container with, name by name, the last
      declaration made, the foreign arguments it started with, and the last check setting and image. */
  lemma {:induction false} MemberRun(c: Container, cfgs: seq<Configuration>, x: string)
    requires c.name == MEMBER && cfgs != []
    requires AllValid(cfgs)
    ensures var final := UpdateAll(c, cfgs);
            && Only(final.env, {x}) == LastDeclared(c.env, WantedEnvs(cfgs), x)
            && Names(final.env) == AllNames(c.env, WantedEnvs(cfgs))
            && final.args == ForeignArgs(c.args, |c.args|) + [FLAG_ASSIGNED + Check(Last(cfgs))]
            && final.image == Last(cfgs).memberImage.Reference()
            && final.mounts == c.mounts && final.resources == c.resources
  {
    MemberRunMerges(c, cfgs);
    RunHistory(c.env, WantedEnvs(cfgs), x);
  }

  lemma {:induction false} MemberRunMerges(c: Container, cfgs: seq<Configuration>)
    requires c.name == MEMBER && cfgs != []
    requires AllValid(cfgs)
    ensures UpdateAll(c, cfgs) ==
            c.(env := MergeAll(c.env, WantedEnvs(cfgs)),
               args := WithCheck(c.args, Check(Last(cfgs))),
               image := Last(cfgs).memberImage.Reference())
  {
    FrontOfSnoc(WantedEnvs(Front(cfgs)), WantedEnv(Last(cfgs)).value);
    if |cfgs| == 1 {
      assert Front(cfgs) == [] && UpdateAll(c, Front(cfgs)) == c && WantedEnvs(Front(cfgs)) == [];
    } else {
      MemberRunMerges(c, Front(cfgs));
      LastCheckWins(c.args, Check(Last(Front(cfgs))), Check(Last(cfgs)));
    }
  }

  // ---------- the API server ----------

  /** One call of Ensure: whether its read succeeds, and what its write does. */
  datatype Call = Call(cfg: Configuration, rest: string, read: bool, write: Outcome)

  ghost predicate Applies(call: Call) {
    Valid(call.cfg) && call.read && call.write != Refused
  }

  /** What a call leaves of the live DaemonSet, if there is one. */
  ghost function AfterEnsure(live: Option<DaemonSet>, call: Call): Option<DaemonSet> {
    if !Applies(call) then live
    else if live.Some? then Some(Target(live.value, call.cfg))
    else Some(Fresh(call.cfg, call.rest).value)
  }

  class DaemonSetStore {
    var live: Option<DaemonSet>

    constructor ()
      ensures live == None
    {
      live := None;
    }

    /** Build, read, then create or update. A reported success leaves a DaemonSet on which a
        further pass finds nothing to do. */
    method Ensure(cfg: Configuration, rest: string, read: bool, write: Outcome) returns (error: Option<string>)
      modifies this
      ensures live == AfterEnsure(old(live), Call(cfg, rest, read, write))
      ensures error == None <==>
                && Valid(cfg) && read
                && (write == Done || (old(live).Some? && Target(old(live).value, cfg) == old(live).value))
      ensures error == None ==> live.Some? && Target(live.value, cfg) == live.value
    {
      var built := SetLSDaemonSet(cfg, rest);
      if built.Err? {
        return Some(built.message);
      }
      FreshIsUpToDate(cfg, rest);
      if !read {
        return Some("get");
      }
      if live == None {
        if write != Refused {
          live := Some(built.value);
        }
        return if write == Done then None else Some("create");
      }
      var gotten := live.value;
      UpdateConverges(gotten, cfg);
      var changed, ds, failed := NeedOrNotToUpdate(cfg, gotten);
      if failed.Some? {
        return failed;
      }
      if changed {
        if write != Refused {
          live := Some(ds);
        }
        return if write == Done then None else Some("update");
      }
      return None;
    }
  }

  // ---------- runs of calls ----------

  ghost function AfterAll(live: Option<DaemonSet>, calls: seq<Call>): Option<DaemonSet> {
    if calls == [] then live else AfterEnsure(AfterAll(live, Front(calls)), Last(calls))
  }

  /** The configurations of the calls that had an effect, in order. */
  ghost function Applied(calls: seq<Call>): (cfgs: seq<Configuration>)
    ensures AllValid(cfgs)
  {
    if calls == [] then []
    else if !Applies(Last(calls)) then Applied(Front(calls))
    else
      FrontOfSnoc(Applied(Front(calls)), Last(calls).cfg);
      Applied(Front(calls)) + [Last(calls).cfg]
  }

  /** The DaemonSet the run starts with: the live one, or the one its first effective call creates. */
  ghost function StartedWith(live: Option<DaemonSet>, calls: seq<Call>): (ds: Option<DaemonSet>) {
    if live.Some? || calls == [] then live
    else if StartedWith(live, Front(calls)).Some? then StartedWith(live, Front(calls))
    else AfterEnsure(None, Last(calls))
  }

  ghost function TargetAll(ds: DaemonSet, cfgs: seq<Configuration>): DaemonSet
    requires AllValid(cfgs)
  {
    if cfgs == [] then ds else Target(TargetAll(ds, Front(cfgs)), Last(cfgs))
  }

  lemma TargetAllNext(ds: DaemonSet, cfgs: seq<Configuration>, cfg: Configuration)
    requires AllValid(cfgs) && Valid(cfg)
    ensures AllValid(cfgs + [cfg])
    ensures TargetAll(ds, cfgs + [cfg]) == Target(TargetAll(ds, cfgs), cfg)
  {
    FrontOfSnoc(cfgs, cfg);
  }

  lemma UpdatingOnce(ds: DaemonSet, cfg: Configuration)
    requires Valid(cfg) && Target(ds, cfg) == ds
    ensures AllValid([cfg]) && TargetAll(ds, [] + [cfg]) == ds
  {
    TargetAllNext(ds, [], cfg);
  }

  lemma CreatingUpdates(call: Call)
    requires Applies(call)
    ensures AfterEnsure(None, call).Some? && AllValid([call.cfg])
    ensures TargetAll(AfterEnsure(None, call).value, [] + [call.cfg]) == AfterEnsure(None, call).value
  {
    FreshIsUpToDate(call.cfg, call.rest);
    UpdatingOnce(AfterEnsure(None, call).value, call.cfg);
  }

  /** Failed reads, refused writes and invalid configurations leave no trace: the run is that of the
      calls that had an effect, lost replies included, and creating counts as an update. */
  lemma {:induction false} RunOfApplied(live: Option<DaemonSet>, calls: seq<Call>)
    ensures var begun := StartedWith(live, calls);
            && AfterAll(live, calls) == (if begun.Some? then Some(TargetAll(begun.value, Applied(calls))) else None)
            && (begun == None ==> Applied(calls) == [])
  {
    if calls != [] {
      var before, call := Front(calls), Last(calls);
      RunOfApplied(live, before);
      if Applies(call) {
        if StartedWith(live, before).Some? {
          TargetAllNext(StartedWith(live, before).value, Applied(before), call.cfg);
        } else {
          CreatingUpdates(call);
        }
      }
    }
  }

  lemma {:induction false} TargetAllAt(ds: DaemonSet, cfgs: seq<Configuration>, i: nat)
    requires AllValid(cfgs) && i < |ds.containers|
    ensures |TargetAll(ds, cfgs).containers| == |ds.containers|
    ensures TargetAll(ds, cfgs).containers[i] == UpdateAll(ds.containers[i], cfgs)
  {
    if cfgs != [] {
      TargetAllAt(ds, Front(cfgs), i);
    }
  }

  /** Any run of calls, with failing reads, refused and lost writes and invalid configurations in
      between: each member container reads, name by name, as the last effective call declaring
      the name left it, with the foreign arguments it started with and the last flag and image. */
  lemma EnsureRun(live: Option<DaemonSet>, calls: seq<Call>, i: nat, x: string)
    requires var begun := StartedWith(live, calls);
             begun.Some? && i < |begun.value.containers| && begun.value.containers[i].name == MEMBER
    requires Applied(calls) != []
    ensures var c, cfgs := StartedWith(live, calls).value.containers[i], Applied(calls);
            && AfterAll(live, calls).Some? && i < |AfterAll(live, calls).value.containers|
            && var final := AfterAll(live, calls).value.containers[i];
            && Only(final.env, {x}) == LastDeclared(c.env, WantedEnvs(cfgs), x)
            && Names(final.env) == AllNames(c.env, WantedEnvs(cfgs))
            && final.args == ForeignArgs(c.args, |c.args|) + [FLAG_ASSIGNED + Check(Last(cfgs))]
            && final.image == Last(cfgs).memberImage.Reference()
            && final.mounts == c.mounts && final.resources == c.resources
  {
    var begun := StartedWith(live, calls).value;
    RunOfApplied(live, calls);
    TargetAllAt(begun, Applied(calls), i);
    MemberRun(begun.containers[i], Applied(calls), x);
  }
}
