/** In-order expansion of $(VAR) references, and why manual entries cannot disturb
    the configured ones (pkg/install/localstorage/member_env.go:5-8). */
module EnvExpansion {
  import opened Sequences
  import opened MemberEnv
  import opened MemberEnvLaws

  /** A reference reads the latest earlier declaration, else the service environment;
      a reference nobody answers stays as written. */
  function Resolve(name: string, known: map<string, string>, service: map<string, string>): string {
    if name in known then known[name]
    else if name in service then service[name]
    else "$(" + name + ")"
  }

  function Text(parts: seq<Part>, known: map<string, string>, service: map<string, string>): string {
    if parts == [] then []
    else
      Text(Front(parts), known, service) +
      match Last(parts)
      case Literal(text) => text
      case Ref(name) => Resolve(name, known, service)
  }

  function Evaluate(item: EnvVar, known: map<string, string>, service: map<string, string>,
                    selected: string -> string): string {
    match item.source
    case Value(parts) => Text(parts, known, service)
    case ValueFrom(selector) => selected(selector)
  }

  /** The environment a process sees: declarations in order, a later one of the same name winning. */
  function Expand(env: seq<EnvVar>, service: map<string, string>, selected: string -> string): map<string, string> {
    if env == [] then map[]
    else
      var known := Expand(Front(env), service, selected);
      known[Last(env).name := Evaluate(Last(env), known, service, selected)]
  }

  /** A value written as text and one reference: the text, then what the latest earlier declaration
      says, or else the service environment, or else the reference as it stands. Later ones of the
      same name win, and other names are left alone. */
  lemma DeclarationReads(env: seq<EnvVar>, x: string, text: string, y: string, service: map<string, string>,
                         selected: string -> string)
    ensures var known := Expand(env, service, selected);
            Expand(env + [EnvVar(x, Value([Literal(text), Ref(y)]))], service, selected) ==
            known[x := text + if y in known then known[y] else if y in service then service[y] else "$(" + y + ")"]
    ensures Expand(env + [EnvVar(x, ValueFrom(y))], service, selected) ==
            Expand(env, service, selected)[x := selected(y)]
  {
    var parts: seq<Part> := [Literal(text), Ref(y)];
    var known := Expand(env, service, selected);
    assert Front(parts) == [Literal(text)] && Front(Front(parts)) == [];
    assert Text(Front(parts), known, service) == text;
    FrontOfSnoc(env, EnvVar(x, Value(parts)));
    FrontOfSnoc(env, EnvVar(x, ValueFrom(y)));
  }

  function PartRefs(parts: seq<Part>): set<string> {
    if parts == [] then {}
    else PartRefs(Front(parts)) + match Last(parts) case Literal(_) => {} case Ref(name) => {name}
  }

  function Refs(item: EnvVar): set<string> {
    match item.source
    case Value(parts) => PartRefs(parts)
    case ValueFrom(_) => {}
  }

  /** Every declaration of a name in names refers only to names. */
  predicate Closed(env: seq<EnvVar>, names: set<string>) {
    env == [] || (Closed(Front(env), names) && (Last(env).name in names ==> Refs(Last(env)) <= names))
  }

  predicate Agree(a: map<string, string>, b: map<string, string>, names: set<string>) {
    forall x :: x in names ==> (x in a <==> x in b) && (x in a ==> a[x] == b[x])
  }

  lemma {:induction false} TextAgrees(parts: seq<Part>, a: map<string, string>, b: map<string, string>,
                                      names: set<string>, service: map<string, string>)
    requires Agree(a, b, names) && PartRefs(parts) <= names
    ensures Text(parts, a, service) == Text(parts, b, service)
  {
    if parts != [] {
      TextAgrees(Front(parts), a, b, names, service);
      if Last(parts).Ref? {
        assert Last(parts).name in names;
      }
    }
  }

  /** Entries outside a closed set of names are invisible to it, wherever they stand. */
  lemma {:induction false} OthersInvisible(env: seq<EnvVar>, names: set<string>, service: map<string, string>,
                                           selected: string -> string)
    requires Closed(env, names)
    ensures Agree(Expand(env, service, selected), Expand(Only(env, names), service, selected), names)
  {
    if env != [] {
      var before, item := Front(env), Last(env);
      OthersInvisible(before, names, service, selected);
      if item.name in names {
        var known, known' := Expand(before, service, selected), Expand(Only(before, names), service, selected);
        if item.source.Value? {
          TextAgrees(item.source.parts, known, known', names, service);
        }
        FrontOfSnoc(Only(before, names), item);
      }
    }
  }

  lemma {:induction false} ClosedUnderOnly(env: seq<EnvVar>, outer: set<string>, names: set<string>)
    requires names <= outer
    ensures Closed(Only(env, outer), names) <==> Closed(env, names)
    ensures Only(Only(env, outer), names) == Only(env, names)
  {
    if env != [] {
      ClosedUnderOnly(Front(env), outer, names);
      if Last(env).name in outer {
        FrontOfSnoc(Only(Front(env), outer), Last(env));
      }
    }
  }

  /** Whatever manual entries the live list interleaves, every configured variable whose
      references stay among configured variables gets the value the configuration alone gives it. */
  lemma ExpansionUndisturbed(current: seq<EnvVar>, wanted: seq<EnvVar>, names: set<string>,
                             service: map<string, string>, selected: string -> string)
    requires names <= Names(wanted) && Closed(wanted, names)
    ensures Agree(Expand(Merge(current, wanted), service, selected), Expand(wanted, service, selected), names)
  {
    var m := Merge(current, wanted);
    MergeInterleaves(current, wanted);
    ClosedUnderOnly(m, Names(wanted), names);
    OthersInvisible(m, names, service, selected);
    OthersInvisible(wanted, names, service, selected);
  }

  /** Entries declared first read the same whatever is declared after them under other names. */
  lemma {:induction false} EarlierUnaffected(a: seq<EnvVar>, b: seq<EnvVar>, service: map<string, string>,
                                             selected: string -> string)
    requires Names(a) !! Names(b)
    ensures Agree(Expand(a + b, service, selected), Expand(a, service, selected), Names(a))
  {
    if b == [] {
      assert a + b == a;
    } else {
      EarlierUnaffected(a, Front(b), service, selected);
      assert a + b == a + Front(b) + [Last(b)];
      FrontOfSnoc(a + Front(b), Last(b));
    }
  }

  /** A first declaration sees every manual entry already there, and changes none of them. */
  lemma FreshSeesManual(current: seq<EnvVar>, wanted: seq<EnvVar>, service: map<string, string>,
                        selected: string -> string)
    requires Names(current) !! Names(wanted)
    ensures Agree(Expand(Merge(current, wanted), service, selected), Expand(current, service, selected), Names(current))
  {
    MergeAppendsFresh(current, wanted);
    EarlierUnaffected(current, wanted, service, selected);
  }
}
