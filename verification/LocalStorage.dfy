/** The local-storage DaemonSet: how it is built, and the step that brings a live one
    up to date (pkg/install/localstorage/localstorage.go). */
module LocalStorage {
  import opened Sequences
  import opened Wrappers
  import opened MemberEnv
  import opened MigrateCheck

  const MEMBER := "member"
  const REGISTRAR := "registrar"
  const JUICESYNC_IMAGE := "MIGRAGE_JUICESYNC_IMAGE"
  const JUICEFS_VERSION := "JUICEFS_VERSION"

  datatype ImageSpec = ImageSpec(registry: string, repository: string, tag: string) {
    function Reference(): string {
      registry + "/" + repository + ":" + tag
    }
  }

  datatype Mount = Mount(name: string, path: string)

  datatype Container = Container(
    name: string, image: string, env: seq<EnvVar>, args: seq<string>,
    mounts: seq<Mount>, resources: Option<string>)

  datatype DaemonSet = DaemonSet(containers: seq<Container>, rest: string)

  /** The member extra-env annotation of the Cluster, already decoded. */
  datatype Annotation = Absent | Malformed | Declared(env: seq<EnvVar>)

  /** The fields of the Cluster the step reads, with the operator's own environment. */
  datatype Configuration = Configuration(
    kubeletRootDir: string, memberImage: ImageSpec, registrarImage: ImageSpec, juicesyncImage: ImageSpec,
    memberResources: Option<string>, registrarResources: Option<string>,
    extraEnv: Annotation, juiceFSVersion: string, migrateCheck: string)

  function Plain(name: string, text: string): EnvVar {
    EnvVar(name, Value([Literal(text)]))
  }

  const TEMPLATE_ENV: seq<EnvVar> := [
    EnvVar("POD_NAME", ValueFrom("metadata.name")),
    EnvVar("MY_NODENAME", ValueFrom("spec.nodeName")),
    EnvVar("POD_NAMESPACE", ValueFrom("metadata.namespace")),
    Plain("NODE_ANNOTATION_KEY_STORAGE_IPV4", "localstorage.hwameistor.io/storage-ipv4")
  ]

  const TEMPLATE_ARGS: seq<string> := [
    "--nodename=$(MY_NODENAME)",
    "--namespace=$(POD_NAMESPACE)",
    "--csi-address=$(CSI_ENDPOINT)",
    "--http-port=80",
    "--v=5",
    "--max-migrate-count=1",
    "--snapshot-restore-timeout=600"
  ]

  const TEMPLATE: seq<Container> := [
    Container(REGISTRAR, "", [EnvVar("KUBE_NODE_NAME", ValueFrom("spec.nodeName"))],
              ["--v=5", "--csi-address=/csi/csi.sock"],
              [Mount("socket-dir", "/csi"), Mount("registration-dir", "/registration")], None),
    Container(MEMBER, "", TEMPLATE_ENV, TEMPLATE_ARGS,
              [Mount("host-dev", "/dev"), Mount("host-etc-drbd", "/etc/drbd.d"),
               Mount("ssh-dir", "/root/.ssh"), Mount("host-mnt", "/mnt")], None)
  ]

  // ---------- the desired environment ----------

  function MigrationVersion(cfg: Configuration): string {
    if cfg.juiceFSVersion != "" then cfg.juiceFSVersion else "1.2.0"
  }

  function OperatorEnv(cfg: Configuration): seq<EnvVar> {
    TEMPLATE_ENV + [
      Plain("CSI_ENDPOINT", "unix:/" + cfg.kubeletRootDir + "/plugins/lvm.hwameistor.io/csi.sock"),
      Plain(JUICESYNC_IMAGE, cfg.juicesyncImage.Reference())
    ]
  }

  function ExtraEnv(cfg: Configuration): Result<seq<EnvVar>> {
    match cfg.extraEnv
    case Absent => Ok([])
    case Malformed => Err("parse Cluster annotation")
    case Declared(env) => Ok(env)
  }

  /** The operator's default version gives way to any version in the extra environment. */
  function WithExtra(cfg: Configuration, extra: seq<EnvVar>): seq<EnvVar> {
    OperatorEnv(cfg) +
    (if JUICEFS_VERSION in Names(extra) then [] else [Plain(JUICEFS_VERSION, MigrationVersion(cfg))]) +
    extra
  }

  function WantedEnv(cfg: Configuration): Result<seq<EnvVar>> {
    match ExtraEnv(cfg)
    case Ok(extra) => Ok(WithExtra(cfg, extra))
    case Err(message) => Err(message)
  }

  method GetLSMemberEnv(cfg: Configuration) returns (wanted: Result<seq<EnvVar>>)
    ensures wanted == WantedEnv(cfg)
  {
    var env := [];
    for i := 0 to |TEMPLATE|
      invariant env == [] && i <= 1
    {
      if TEMPLATE[i].name == MEMBER {
        env := env + TEMPLATE[i].env;
        break;
      }
    }
    env := env + [
      Plain("CSI_ENDPOINT", "unix:/" + cfg.kubeletRootDir + "/plugins/lvm.hwameistor.io/csi.sock"),
      Plain(JUICESYNC_IMAGE, cfg.juicesyncImage.Reference())
    ];
    if cfg.extraEnv.Malformed? {
      return Err("parse Cluster annotation");
    }
    var extra := if cfg.extraEnv.Declared? then cfg.extraEnv.env else [];
    var hasVersion := false;
    for i := 0 to |extra|
      invariant !hasVersion && JUICEFS_VERSION !in Names(extra[..i])
    {
      FrontOfPrefix(extra, i);
      if extra[i].name == JUICEFS_VERSION {
        NameAt(extra, i);
        hasVersion := true;
        break;
      }
    }
    assert extra[..|extra|] == extra;
    assert env == OperatorEnv(cfg);
    if !hasVersion {
      env := env + [Plain(JUICEFS_VERSION, MigrationVersion(cfg))];
    } else {
      assert env + [] == env;
    }
    return Ok(env + extra);
  }

  // ---------- bringing one container up to date ----------

  /** A container with the managed fields set for a configuration whose environment and
      check setting have been worked out. */
  function UpToDate(c: Container, cfg: Configuration, wanted: seq<EnvVar>, check: string): Container {
    if c.name == MEMBER then
      c.(env := Merge(c.env, wanted), args := WithCheck(c.args, check), image := cfg.memberImage.Reference())
    else if c.name == REGISTRAR then c.(image := cfg.registrarImage.Reference())
    else c
  }

  /** The containers with the first n brought up to date. */
  function UpToDateUntil(cs: seq<Container>, n: nat, cfg: Configuration, wanted: seq<EnvVar>,
                         check: string): (r: seq<Container>)
    requires n <= |cs|
    ensures |r| == |cs|
  {
    seq(|cs|, i requires 0 <= i < |cs| => if i < n then UpToDate(cs[i], cfg, wanted, check) else cs[i])
  }

  function FirstMember(cs: seq<Container>, from: nat): (i: nat)
    requires from <= |cs|
    ensures from <= i <= |cs|
    decreases |cs| - from
  {
    if from == |cs| || cs[from].name == MEMBER then from else FirstMember(cs, from + 1)
  }

  /** The live DaemonSet with every container brought up to date. */
  function Updated(ds: DaemonSet, cfg: Configuration, wanted: seq<EnvVar>, check: string): DaemonSet {
    ds.(containers := UpToDateUntil(ds.containers, |ds.containers|, cfg, wanted, check))
  }

  /** One round of the pass, on a copy of the container. */
  method UpdateContainer(live: Container, cfg: Configuration, wanted: seq<EnvVar>)
    returns (updated: Result<Container>, modified: bool)
    ensures updated.Err? <==> live.name == MEMBER && CheckSetting(cfg.migrateCheck).Err?
    ensures updated.Ok? ==>
              && updated.value == UpToDate(live, cfg, wanted, Check(cfg))
              && (modified <==> updated.value != live)
  {
    var container := live;
    modified := false;
    if container.name == MEMBER {
      var mergedEnv := MergeMemberEnv(container.env, wanted);
      if container.env != mergedEnv {
        container := container.(env := mergedEnv);
        modified := true;
      }
      var args := SetMigrationCheck(container.args, cfg.migrateCheck);
      if args.Err? {
        return Err(args.message), modified;
      }
      if container.args != args.value {
        modified := true;
      }
      container := container.(args := args.value);
      if container.image != cfg.memberImage.Reference() {
        container := container.(image := cfg.memberImage.Reference());
        modified := true;
      }
    }
    if container.name == REGISTRAR {
      if container.image != cfg.registrarImage.Reference() {
        container := container.(image := cfg.registrarImage.Reference());
        modified := true;
      }
    }
    return Ok(container), modified;
  }

  /** The check setting, where it is supported. */
  function Check(cfg: Configuration): string {
    match CheckSetting(cfg.migrateCheck)
    case Ok(check) => check
    case Err(_) => ""
  }

  lemma UntilNext(cs: seq<Container>, n: nat, cfg: Configuration, wanted: seq<EnvVar>, check: string)
    requires n < |cs|
    ensures UpToDateUntil(cs, n, cfg, wanted, check)[n] == cs[n]
    ensures UpToDateUntil(cs, n + 1, cfg, wanted, check) ==
            UpToDateUntil(cs, n, cfg, wanted, check)[n := UpToDate(cs[n], cfg, wanted, check)]
  {
  }

  /** The pass has gone through the first n containers, and not stopped there. */
  predicate PassedTo(cs: seq<Container>, live: seq<Container>, n: nat, cfg: Configuration, wanted: seq<EnvVar>,
                     changed: bool)
    requires n <= |live|
  {
    && cs == UpToDateUntil(live, n, cfg, wanted, Check(cfg))
    && (changed <==> cs != live)
    && (CheckSetting(cfg.migrateCheck).Err? ==> FirstMember(live, 0) == FirstMember(live, n))
  }

  lemma PassedNext(cs: seq<Container>, live: seq<Container>, n: nat, cfg: Configuration, wanted: seq<EnvVar>,
                   changed: bool, c: Container)
    requires n < |live| && PassedTo(cs, live, n, cfg, wanted, changed)
    requires c == UpToDate(live[n], cfg, wanted, Check(cfg))
    requires CheckSetting(cfg.migrateCheck).Err? ==> live[n].name != MEMBER
    ensures PassedTo(cs[n := c], live, n + 1, cfg, wanted, changed || c != live[n])
  {
    UntilNext(live, n, cfg, wanted, Check(cfg));
    if c == live[n] {
      assert cs[n := c] == cs;
    } else {
      assert cs[n := c][n] != live[n];
    }
  }

  /** The pass over a copy of the containers, in place. */
  method UpdateContainers(containers: array<Container>, cfg: Configuration, wanted: seq<EnvVar>)
    returns (changed: bool, error: Option<string>)
    modifies containers
    ensures var live, stop := old(containers[..]), FirstMember(old(containers[..]), 0);
            if CheckSetting(cfg.migrateCheck).Ok? || stop == |live| then
              error == None && PassedTo(containers[..], live, |live|, cfg, wanted, changed)
            else
              error.Some? && !changed && containers[..] == UpToDateUntil(live, stop, cfg, wanted, Check(cfg))
  {
    ghost var live := containers[..];
    changed := false;
    for i := 0 to containers.Length
      invariant PassedTo(containers[..], live, i, cfg, wanted, changed)
    {
      UntilNext(live, i, cfg, wanted, Check(cfg));
      ghost var was := containers[..];
      var updated, modified := UpdateContainer(containers[i], cfg, wanted);
      if updated.Err? {
        return false, Some(updated.message);
      }
      PassedNext(was, live, i, cfg, wanted, changed, updated.value);
      if modified {
        containers[i] := updated.value;
        changed := true;
      }
      assert containers[..] == was[i := updated.value];
    }
    return changed, None;
  }

  /** The check setting is looked at only when a member container is met; an unsupported one
      stops the pass there, with the containers before it already brought up to date in the copy. */
  method NeedOrNotToUpdate(cfg: Configuration, gotten: DaemonSet)
    returns (changed: bool, ds: DaemonSet, error: Option<string>)
    ensures WantedEnv(cfg).Err? ==> error.Some? && ds == gotten
    ensures WantedEnv(cfg).Ok? && CheckSetting(cfg.migrateCheck).Ok? ==>
              error == None && ds == Updated(gotten, cfg, WantedEnv(cfg).value, Check(cfg))
    ensures WantedEnv(cfg).Ok? && CheckSetting(cfg.migrateCheck).Err? ==>
              var stop := FirstMember(gotten.containers, 0);
              && ds == gotten.(containers :=
                   UpToDateUntil(gotten.containers, stop, cfg, WantedEnv(cfg).value, Check(cfg)))
              && (error.Some? <==> stop < |gotten.containers|)
    ensures changed <==> error == None && ds != gotten
  {
    var wanted := GetLSMemberEnv(cfg);
    if wanted.Err? {
      return false, gotten, Some(wanted.message);
    }
    var live := gotten.containers;
    var containers := new Container[|live|](i requires 0 <= i < |live| => live[i]);
    assert containers[..] == live;
    changed, error := UpdateContainers(containers, cfg, wanted.value);
    ds := gotten.(containers := containers[..]);
  }

  // ---------- building a DaemonSet from nothing ----------

  function FreshRegistrar(c: Container, cfg: Configuration): Container {
    c.(args := c.args + ["--kubelet-registration-path=" + cfg.kubeletRootDir + "/plugins/lvm.hwameistor.io/csi.sock"],
       image := cfg.registrarImage.Reference(),
       resources := if cfg.registrarResources.Some? then cfg.registrarResources else c.resources)
  }

  function FreshMember(c: Container, cfg: Configuration, wanted: seq<EnvVar>, check: string): Container {
    c.(env := wanted,
       args := WithCheck(c.args, check),
       image := cfg.memberImage.Reference(),
       mounts := c.mounts + [Mount("plugin-dir", cfg.kubeletRootDir + "/plugins"),
                             Mount("registration-dir", cfg.kubeletRootDir + "/plugins_registry"),
                             Mount("pods-mount-dir", cfg.kubeletRootDir + "/pods")],
       resources := if cfg.memberResources.Some? then cfg.memberResources else c.resources)
  }

  function Fresh(cfg: Configuration, rest: string): Result<DaemonSet> {
    match (WantedEnv(cfg), CheckSetting(cfg.migrateCheck))
    case (Ok(wanted), Ok(check)) =>
      Ok(DaemonSet([FreshRegistrar(TEMPLATE[0], cfg), FreshMember(TEMPLATE[1], cfg, wanted, check)], rest))
    case (Err(message), _) => Err(message)
    case (Ok(_), Err(message)) => Err(message)
  }

  method SetLSDaemonSet(cfg: Configuration, rest: string) returns (built: Result<DaemonSet>)
    ensures built == Fresh(cfg, rest)
  {
    var containers := new Container[|TEMPLATE|](i requires 0 <= i < |TEMPLATE| => TEMPLATE[i]);
    for i := 0 to |TEMPLATE|
      invariant i > 0 ==> containers[0] == FreshRegistrar(TEMPLATE[0], cfg)
      invariant i > 1 ==> Fresh(cfg, rest).Ok? && containers[1] == Fresh(cfg, rest).value.containers[1]
      invariant forall k :: i <= k < |TEMPLATE| ==> containers[k] == TEMPLATE[k]
    {
      var container := containers[i];
      if container.name == REGISTRAR {
        container := container.(
          args := container.args +
                  ["--kubelet-registration-path=" + cfg.kubeletRootDir + "/plugins/lvm.hwameistor.io/csi.sock"],
          image := cfg.registrarImage.Reference());
        if cfg.registrarResources.Some? {
          container := container.(resources := cfg.registrarResources);
        }
      }
      if container.name == MEMBER {
        if cfg.memberResources.Some? {
          container := container.(resources := cfg.memberResources);
        }
        var wanted := GetLSMemberEnv(cfg);
        if wanted.Err? {
          return Err(wanted.message);
        }
        container := container.(env := wanted.value);
        var args := SetMigrationCheck(container.args, cfg.migrateCheck);
        if args.Err? {
          return Err(args.message);
        }
        container := container.(args := args.value, image := cfg.memberImage.Reference());
        container := container.(mounts := container.mounts + [
          Mount("plugin-dir", cfg.kubeletRootDir + "/plugins"),
          Mount("registration-dir", cfg.kubeletRootDir + "/plugins_registry"),
          Mount("pods-mount-dir", cfg.kubeletRootDir + "/pods")]);
      }
      containers[i] := container;
    }
    assert containers[..] == Fresh(cfg, rest).value.containers;
    return Ok(DaemonSet(containers[..], rest));
  }
}
