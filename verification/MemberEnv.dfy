/** The order-preserving merge of a live environment with the configured one
    (pkg/install/localstorage/member_env.go). */
module MemberEnv {
  import opened Sequences

  /** A value already split at its $(VAR) references. */
  datatype Part = Literal(text: string) | Ref(name: string)

  datatype Source = Value(parts: seq<Part>) | ValueFrom(selector: string)

  datatype EnvVar = EnvVar(name: string, source: Source)

  function Names(env: seq<EnvVar>): set<string> {
    if env == [] then {} else Names(Front(env)) + {Last(env).name}
  }

  lemma {:induction false} NameAt(env: seq<EnvVar>, i: nat)
    requires i < |env|
    ensures env[i].name in Names(env)
  {
    if i < |env| - 1 {
      NameAt(Front(env), i);
    }
  }

  lemma {:induction false} NameIndex(env: seq<EnvVar>, x: string) returns (i: nat)
    requires x in Names(env)
    ensures i < |env| && env[i].name == x
  {
    if Last(env).name == x {
      i := |env| - 1;
    } else {
      i := NameIndex(Front(env), x);
    }
  }

  function NameSeq(env: seq<EnvVar>): (s: seq<string>)
    ensures |s| == |env|
    ensures forall i :: 0 <= i < |env| ==> s[i] == env[i].name
  {
    seq(|env|, i requires 0 <= i < |env| => env[i].name)
  }

  /** The entries named in names, in order and with duplicates. */
  function Only(env: seq<EnvVar>, names: set<string>): seq<EnvVar> {
    if env == [] then []
    else if Last(env).name in names then Only(Front(env), names) + [Last(env)]
    else Only(Front(env), names)
  }

  /** The entries not named in names, in order and with duplicates. */
  function Without(env: seq<EnvVar>, names: set<string>): seq<EnvVar> {
    if env == [] then []
    else if Last(env).name in names then Without(Front(env), names)
    else Without(Front(env), names) + [Last(env)]
  }

  /** First index at or after next whose entry is called name, or |wanted|. */
  function FirstFrom(wanted: seq<EnvVar>, next: nat, name: string): (i: nat)
    requires next <= |wanted|
    ensures next <= i <= |wanted|
    ensures i < |wanted| ==> wanted[i].name == name
    decreases |wanted| - next
  {
    if next == |wanted| || wanted[next].name == name then next
    else FirstFrom(wanted, next + 1, name)
  }

  lemma {:induction false} FirstFromIsFirst(wanted: seq<EnvVar>, next: nat, name: string, i: nat)
    requires next <= i < |wanted| && wanted[i].name == name
    ensures FirstFrom(wanted, next, name) <= i
    decreases |wanted| - next
  {
    if wanted[next].name != name {
      FirstFromIsFirst(wanted, next + 1, name, i);
    }
  }

  lemma NotFound(wanted: seq<EnvVar>, next: nat, name: string)
    requires next <= |wanted| && name !in Names(wanted)
    ensures FirstFrom(wanted, next, name) == |wanted|
  {
    var i := FirstFrom(wanted, next, name);
    if i < |wanted| {
      NameAt(wanted, i);
    }
  }

  /** How many desired entries are out once the entries of current are processed. */
  function Emitted(current: seq<EnvVar>, wanted: seq<EnvVar>): (n: nat)
    ensures n <= |wanted|
  {
    if current == [] then 0
    else
      var n := Emitted(Front(current), wanted);
      var i := FirstFrom(wanted, n, Last(current).name);
      if i < |wanted| then i + 1 else n
  }

  /** What has been written once the entries of current are processed. */
  function Body(current: seq<EnvVar>, wanted: seq<EnvVar>): seq<EnvVar> {
    if current == [] then []
    else if Last(current).name !in Names(wanted) then Body(Front(current), wanted) + [Last(current)]
    else Body(Front(current), wanted) + wanted[Emitted(Front(current), wanted)..Emitted(current, wanted)]
  }

  function Merge(current: seq<EnvVar>, wanted: seq<EnvVar>): seq<EnvVar> {
    Body(current, wanted) + wanted[Emitted(current, wanted)..]
  }

  method MergeMemberEnv(current: seq<EnvVar>, wanted: seq<EnvVar>) returns (merged: seq<EnvVar>)
    ensures merged == Merge(current, wanted)
  {
    var configured: map<string, bool> := map[];
    for k := 0 to |wanted|
      invariant configured.Keys == Names(wanted[..k])
      invariant forall name :: name in configured ==> configured[name]
    {
      FrontOfPrefix(wanted, k);
      configured := configured[wanted[k].name := true];
    }
    assert wanted[..|wanted|] == wanted;

    merged := [];
    var next := 0;
    for k := 0 to |current|
      invariant next == Emitted(current[..k], wanted)
      invariant merged == Body(current[..k], wanted)
    {
      var item := current[k];
      FrontOfPrefix(current, k);
      if item.name !in configured {
        NotFound(wanted, next, item.name);
        merged := merged + [item];
        continue;
      }
      ghost var found := FirstFrom(wanted, next, item.name);
      var i := next;
      while i < |wanted|
        invariant next == Emitted(current[..k], wanted)
        invariant next <= i <= found
        invariant merged == Body(current[..k], wanted)
      {
        if wanted[i].name == item.name {
          FirstFromIsFirst(wanted, next, item.name, i);
          merged := merged + wanted[next..i + 1];
          next := i + 1;
          break;
        }
        i := i + 1;
      }
    }
    assert current[..|current|] == current;
    merged := merged + wanted[next..];
  }
}
