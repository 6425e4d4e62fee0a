/** The storage classes offered for the pools that exist
    (pkg/install/storageclass/storageclass.go). */
module StorageClasses {
  import opened Sequences
  import opened Wrappers
  import opened LocalDisks

  /** The parameter map of a class, key by key. */
  datatype Parameters = Parameters(
    replicaNumber: string, poolType: string, volumeKind: string, striped: string, convertible: string,
    fsType: Option<string>, poolClass: Option<string>)

  datatype StorageClass = StorageClass(
    name: string, parameters: Parameters, allowVolumeExpansion: bool, reclaimPolicy: string)

  const TEMPLATE := StorageClass("", Parameters("1", "REGULAR", "LVM", "true", "false", None, None), false, "")

  /** Only the settings of the Cluster have been put into the template. */
  predicate Pristine(template: StorageClass) {
    template.name == TEMPLATE.name && template.parameters == TEMPLATE.parameters.(fsType := template.parameters.fsType)
  }

  const BASE := "hwameistor-storage-lvm-"
  const CONVERTIBLE := "-convertible"
  const HA := "-ha"

  /** The pool classes of one storage node. */
  type Pools = seq<string>

  function NameFor(poolClass: string): string {
    BASE + ToLower(poolClass)
  }

  // ---------- names ----------

  function AddPools(m: map<string, string>, pools: Pools): map<string, string> {
    if pools == [] then m else AddPools(m, Front(pools))[NameFor(Last(pools)) := Last(pools)]
  }

  function NameMap(nodes: seq<Pools>): map<string, string> {
    if nodes == [] then map[] else AddPools(NameMap(Front(nodes)), Last(nodes))
  }

  method GenerateNames(nodes: seq<Pools>) returns (m: map<string, string>)
    ensures m == NameMap(nodes)
  {
    m := map[];
    for i := 0 to |nodes|
      invariant m == NameMap(nodes[..i])
    {
      FrontOfPrefix(nodes, i);
      for j := 0 to |nodes[i]|
        invariant m == AddPools(NameMap(nodes[..i]), nodes[i][..j])
      {
        FrontOfPrefix(nodes[i], j);
        m := m[NameFor(nodes[i][j]) := nodes[i][j]];
      }
      assert nodes[i][..|nodes[i]|] == nodes[i];
    }
    assert nodes[..|nodes|] == nodes;
  }

  lemma {:induction false} AddPoolsExact(m: map<string, string>, pools: Pools, x: string)
    ensures x in AddPools(m, pools) <==> x in m || exists p :: p in pools && NameFor(p) == x
    ensures x in AddPools(m, pools) && (exists p :: p in pools && NameFor(p) == x) ==>
              AddPools(m, pools)[x] in pools && NameFor(AddPools(m, pools)[x]) == x
    ensures x in m && !(exists p :: p in pools && NameFor(p) == x) ==> AddPools(m, pools)[x] == m[x]
  {
    if pools != [] {
      AddPoolsExact(m, Front(pools), x);
      Rejoin(pools);
    }
  }

  ghost predicate Offered(nodes: seq<Pools>, poolClass: string) {
    exists i :: 0 <= i < |nodes| && poolClass in nodes[i]
  }

  /** The names are exactly those of the pool classes found, and each stands for one of them. */
  lemma {:induction false} NamesExact(nodes: seq<Pools>, x: string)
    ensures x in NameMap(nodes) <==> exists p :: Offered(nodes, p) && NameFor(p) == x
    ensures x in NameMap(nodes) ==> Offered(nodes, NameMap(nodes)[x]) && NameFor(NameMap(nodes)[x]) == x
  {
    if nodes != [] {
      var before := Front(nodes);
      NamesExact(before, x);
      AddPoolsExact(NameMap(before), Last(nodes), x);
      assert forall i :: 0 <= i < |before| ==> before[i] == nodes[i];
      forall p
        ensures Offered(nodes, p) <==> Offered(before, p) || p in Last(nodes)
      {
        if Offered(before, p) {
          var i :| 0 <= i < |before| && p in before[i];
          assert p in nodes[i];
        }
      }
    }
  }

  /** What stands for a name is the last pool class offered for it. */
  lemma {:induction false} LastPoolWins(nodes: seq<Pools>, i: nat, j: nat)
    requires i < |nodes| && j < |nodes[i]|
    requires forall l :: j < l < |nodes[i]| ==> ToLower(nodes[i][l]) != ToLower(nodes[i][j])
    requires forall k, l :: i < k < |nodes| && 0 <= l < |nodes[k]| ==> ToLower(nodes[k][l]) != ToLower(nodes[i][j])
    ensures NameFor(nodes[i][j]) in NameMap(nodes) && NameMap(nodes)[NameFor(nodes[i][j])] == nodes[i][j]
  {
    var x := NameFor(nodes[i][j]);
    if i == |nodes| - 1 {
      PoolsLast(NameMap(Front(nodes)), nodes[i], j);
    } else {
      LastPoolWins(Front(nodes), i, j);
      forall l | 0 <= l < |Last(nodes)|
        ensures NameFor(Last(nodes)[l]) != x
      {
        NamesLower(Last(nodes)[l], nodes[i][j]);
      }
      AddPoolsExact(NameMap(Front(nodes)), Last(nodes), x);
    }
  }

  lemma NamesLower(p: string, q: string)
    ensures NameFor(p) == NameFor(q) <==> ToLower(p) == ToLower(q)
  {
    assert NameFor(p)[|BASE|..] == ToLower(p) && NameFor(q)[|BASE|..] == ToLower(q);
  }

  lemma {:induction false} PoolsLast(m: map<string, string>, pools: Pools, j: nat)
    requires j < |pools| && forall l :: j < l < |pools| ==> ToLower(pools[l]) != ToLower(pools[j])
    ensures NameFor(pools[j]) in AddPools(m, pools) && AddPools(m, pools)[NameFor(pools[j])] == pools[j]
  {
    if j < |pools| - 1 {
      PoolsLast(m, Front(pools), j);
      NamesLower(Last(pools), pools[j]);
    }
  }

  // ---------- classes ----------

  function Plain(template: StorageClass, name: string, poolClass: string): StorageClass {
    template.(name := name, parameters := template.parameters.(poolClass := Some(poolClass)))
  }

  function Convertible(template: StorageClass, name: string, poolClass: string): StorageClass {
    template.(name := name + CONVERTIBLE,
              parameters := template.parameters.(poolClass := Some(poolClass), convertible := "true",
                                                      replicaNumber := "1"))
  }

  function HighlyAvailable(template: StorageClass, name: string, poolClass: string): StorageClass {
    template.(name := name + HA,
              parameters := template.parameters.(poolClass := Some(poolClass), convertible := "true",
                                                      replicaNumber := "2"))
  }

  /** The classes of one base name. */
  function Block(template: StorageClass, name: string, poolClass: string, convertible: bool,
                 ha: bool): seq<StorageClass> {
    [Plain(template, name, poolClass)] +
    (if convertible then [Convertible(template, name, poolClass)] else []) +
    (if ha then [HighlyAvailable(template, name, poolClass)] else [])
  }

  /** The classes of the base names in this order. */
  function Classes(template: StorageClass, order: seq<string>, names: map<string, string>,
                   convertible: bool, ha: bool): seq<StorageClass>
    requires forall name :: name in order ==> name in names
  {
    if order == [] then []
    else
      assert order == Front(order) + [Last(order)];
      Classes(template, Front(order), names, convertible, ha) +
      Block(template, Last(order), names[Last(order)], convertible, ha)
  }

  /** The order in which a map of names is gone through: any, each name once. */
  ghost predicate Enumerates(order: seq<string>, names: map<string, string>) {
    && Distinct(order)
    && (forall name :: name in order <==> name in names)
  }

  method GenerateStorageClass(template: StorageClass, names: map<string, string>, convertible: bool, ha: bool)
    returns (classes: seq<StorageClass>)
    ensures exists order :: Enumerates(order, names) && classes == Classes(template, order, names, convertible, ha)
  {
    classes := [];
    var remaining := names.Keys;
    ghost var order: seq<string> := [];
    while remaining != {}
      invariant remaining <= names.Keys && Distinct(order)
      invariant forall name :: name in order <==> name in names && name !in remaining
      invariant classes == Classes(template, order, names, convertible, ha)
      decreases |remaining|
    {
      var name :| name in remaining;
      var poolClass := names[name];
      FrontOfSnoc(order, name);
      classes := classes + Block(template, name, poolClass, convertible, ha);
      order := order + [name];
      remaining := remaining - {name};
    }
  }

  // ---------- what is generated ----------

  /** c is one of the classes of a base name, for the right pool class and number of replicas. */
  ghost predicate ClassOf(c: StorageClass, template: StorageClass, names: map<string, string>,
                          convertible: bool, ha: bool, name: string) {
    && name in names
    && c in Block(template, name, names[name], convertible, ha)
  }

  lemma {:induction false} ClassesInOrder(template: StorageClass, order: seq<string>, names: map<string, string>,
                                        convertible: bool, ha: bool)
    requires forall name :: name in order ==> name in names
    ensures |Classes(template, order, names, convertible, ha)| ==
            |order| * (1 + (if convertible then 1 else 0) + (if ha then 1 else 0))
  {
    if order != [] {
      ClassesInOrder(template, Front(order), names, convertible, ha);
    }
  }

  /** As many classes as names and settings make, whatever the order. */
  lemma ClassesCount(template: StorageClass, order: seq<string>, names: map<string, string>, convertible: bool,
                     ha: bool)
    requires Enumerates(order, names)
    ensures |Classes(template, order, names, convertible, ha)| ==
            |names| * (1 + (if convertible then 1 else 0) + (if ha then 1 else 0))
  {
    ClassesInOrder(template, order, names, convertible, ha);
    DistinctCount(order);
    assert Elements(order) == names.Keys;
  }

  /** Exactly the classes of every base name. */
  lemma {:induction false} ClassesExact(template: StorageClass, order: seq<string>, names: map<string, string>,
                                        convertible: bool, ha: bool, c: StorageClass)
    requires forall name :: name in order ==> name in names
    ensures c in Classes(template, order, names, convertible, ha) <==>
            exists name :: name in order && ClassOf(c, template, names, convertible, ha, name)
  {
    if order != [] {
      Rejoin(order);
      ClassesExact(template, Front(order), names, convertible, ha, c);
      if c in Classes(template, Front(order), names, convertible, ha) {
        var name :| name in Front(order) && ClassOf(c, template, names, convertible, ha, name);
        assert name in order;
      } else if c in Block(template, Last(order), names[Last(order)], convertible, ha) {
        assert ClassOf(c, template, names, convertible, ha, Last(order));
      }
    }
  }

  lemma BlockClass(template: StorageClass, base: string, poolClass: string, convertible: bool, ha: bool,
                   c: StorageClass)
    requires Pristine(template) && c in Block(template, base, poolClass, convertible, ha)
    ensures c.parameters.poolClass == Some(poolClass) && c.name in {base, base + CONVERTIBLE, base + HA}
    ensures c.parameters.replicaNumber == "1" || (c.parameters.replicaNumber == "2" && ha && c.name == base + HA)
  {
  }

  /** Every generated class carries the pool class its base name stands for, which the nodes
      offer; one that asks for two replicas is the high-availability class of its base name. */
  lemma GeneratedClass(template: StorageClass, order: seq<string>, nodes: seq<Pools>, convertible: bool, ha: bool,
                       c: StorageClass)
    requires Enumerates(order, NameMap(nodes)) && Pristine(template)
    requires c in Classes(template, order, NameMap(nodes), convertible, ha)
    ensures c.parameters.poolClass.Some? && Offered(nodes, c.parameters.poolClass.value)
    ensures var base := NameFor(c.parameters.poolClass.value);
            && c.name in {base, base + CONVERTIBLE, base + HA}
            && (c.parameters.replicaNumber == "2" ==> ha && c.name == base + HA)
            && (c.parameters.replicaNumber in {"1", "2"})
  {
    ClassesExact(template, order, NameMap(nodes), convertible, ha, c);
    var name :| name in order && ClassOf(c, template, NameMap(nodes), convertible, ha, name);
    NamesExact(nodes, name);
    BlockClass(template, name, NameMap(nodes)[name], convertible, ha, c);
  }

  /** Every offered pool class has its classes among the generated ones. */
  lemma OfferedIsServed(template: StorageClass, order: seq<string>, nodes: seq<Pools>, convertible: bool, ha: bool,
                        p: string)
    requires Enumerates(order, NameMap(nodes)) && Offered(nodes, p)
    ensures var names, base := NameMap(nodes), NameFor(p);
            && base in names && NameFor(names[base]) == base
            && forall c :: c in Block(template, base, names[base], convertible, ha) ==>
                 c in Classes(template, order, names, convertible, ha)
  {
    var names, base := NameMap(nodes), NameFor(p);
    NamesExact(nodes, base);
    forall c | c in Block(template, base, names[base], convertible, ha)
      ensures c in Classes(template, order, names, convertible, ha)
    {
      assert ClassOf(c, template, names, convertible, ha, base);
      ClassesExact(template, order, names, convertible, ha, c);
    }
  }

  /** A class as the documentation of the parameters has it: its name, its replicas, whether it can be
      converted, and the pool class it takes its volumes from. */
  predicate Reads(c: StorageClass, p: string, suffix: string, replicas: string, convertible: string) {
    && c.name == "hwameistor-storage-lvm-" + ToLower(p) + suffix
    && c.parameters.replicaNumber == replicas && c.parameters.convertible == convertible
    && c.parameters.poolType == "REGULAR" && c.parameters.volumeKind == "LVM" && c.parameters.striped == "true"
    && c.parameters.poolClass.Some? && ToLower(c.parameters.poolClass.value) == ToLower(p)
  }

  /** For every pool class on any node there is the plain class, with one replica; with one DRBD job
      done, a convertible one of one replica; and with two, one of two replicas. */
  ghost predicate Serves(classes: seq<StorageClass>, p: string, convertible: bool, ha: bool) {
    && (exists c :: c in classes && Reads(c, p, "", "1", "false"))
    && (convertible ==> exists c :: c in classes && Reads(c, p, "-convertible", "1", "true"))
    && (ha ==> exists c :: c in classes && Reads(c, p, "-ha", "2", "true"))
  }

  lemma OfferedReads(template: StorageClass, order: seq<string>, nodes: seq<Pools>, convertible: bool, ha: bool,
                     p: string)
    requires Enumerates(order, NameMap(nodes)) && Pristine(template) && Offered(nodes, p)
    ensures Serves(Classes(template, order, NameMap(nodes), convertible, ha), p, convertible, ha)
  {
    var names, base := NameMap(nodes), NameFor(p);
    OfferedIsServed(template, order, nodes, convertible, ha, p);
    NamesLower(names[base], p);
    assert base == "hwameistor-storage-lvm-" + ToLower(p) + "";
    var plain := Plain(template, base, names[base]);
    assert plain in Block(template, base, names[base], convertible, ha);
    assert Reads(plain, p, "", "1", "false");
    if convertible {
      var c := Convertible(template, base, names[base]);
      assert c in Block(template, base, names[base], convertible, ha);
      assert Reads(c, p, "-convertible", "1", "true");
    }
    if ha {
      var c := HighlyAvailable(template, base, names[base]);
      assert c in Block(template, base, names[base], convertible, ha);
      assert Reads(c, p, "-ha", "2", "true");
    }
  }

  // ---------- when names are distinct ----------

  function BlockNames(name: string, convertible: bool, ha: bool): seq<string> {
    [name] + (if convertible then [name + CONVERTIBLE] else []) + (if ha then [name + HA] else [])
  }

  function ClassNames(order: seq<string>, convertible: bool, ha: bool): seq<string> {
    if order == [] then []
    else ClassNames(Front(order), convertible, ha) + BlockNames(Last(order), convertible, ha)
  }

  lemma {:induction false} ClassNamesAre(template: StorageClass, order: seq<string>, names: map<string, string>,
                                         convertible: bool, ha: bool)
    requires forall name :: name in order ==> name in names
    ensures var classes := Classes(template, order, names, convertible, ha);
            && |ClassNames(order, convertible, ha)| == |classes|
            && forall i :: 0 <= i < |classes| ==> ClassNames(order, convertible, ha)[i] == classes[i].name
  {
    if order != [] {
      ClassNamesAre(template, Front(order), names, convertible, ha);
    }
  }

  /** One base name is another with a suffix that is in use. */
  predicate Clash(a: string, b: string, convertible: bool, ha: bool) {
    (convertible && a == b + CONVERTIBLE) || (ha && a == b + HA)
  }

  ghost predicate NoClash(order: seq<string>, convertible: bool, ha: bool) {
    forall a, b :: a in order && b in order ==> !Clash(a, b, convertible, ha)
  }

  lemma SuffixesDiffer(a: string, b: string)
    ensures a + CONVERTIBLE == b + CONVERTIBLE ==> a == b
    ensures a + HA == b + HA ==> a == b
    ensures a + CONVERTIBLE != b + HA && a != a + HA && a != a + CONVERTIBLE
  {
    var x, y := a + CONVERTIBLE, b + HA;
    assert x[|x| - 1] == 'e' && y[|y| - 1] == 'a';
    assert x[..|a|] == a && (b + CONVERTIBLE)[..|b|] == b;
    assert (a + HA)[..|a|] == a && y[..|b|] == b;
  }

  lemma {:induction false} ClassNamesMembers(order: seq<string>, convertible: bool, ha: bool, x: string)
    ensures x in ClassNames(order, convertible, ha) <==>
            exists b :: b in order && (x == b || Clash(x, b, convertible, ha))
  {
    if order != [] {
      Rejoin(order);
      ClassNamesMembers(Front(order), convertible, ha, x);
      assert x in BlockNames(Last(order), convertible, ha) <==>
             x == Last(order) || Clash(x, Last(order), convertible, ha);
      if x in BlockNames(Last(order), convertible, ha) {
        assert Last(order) in order;
      } else if x in ClassNames(Front(order), convertible, ha) {
        var b :| b in Front(order) && (x == b || Clash(x, b, convertible, ha));
        assert b in order;
      }
    }
  }

  lemma {:induction false} NamesDistinctExactly(order: seq<string>, convertible: bool, ha: bool)
    requires Distinct(order)
    ensures Distinct(ClassNames(order, convertible, ha)) <==> NoClash(order, convertible, ha)
  {
    if order != [] {
      var before, name := Front(order), Last(order);
      var block := BlockNames(name, convertible, ha);
      Rejoin(order);
      DistinctConcat(before, [name]);
      NamesDistinctExactly(before, convertible, ha);
      DistinctConcat(ClassNames(before, convertible, ha), block);
      SuffixesDiffer(name, name);
      BlockApart(before, name, convertible, ha);
    }
  }

  /** The names of one more base name stay apart from the earlier ones exactly when it clashes
      with none of them, in either role. */
  lemma BlockApart(before: seq<string>, name: string, convertible: bool, ha: bool)
    requires name !in before
    ensures (forall x :: x in ClassNames(before, convertible, ha) ==> x !in BlockNames(name, convertible, ha)) <==>
            (forall b :: b in before ==> !Clash(name, b, convertible, ha) && !Clash(b, name, convertible, ha))
  {
    var earlier, block := ClassNames(before, convertible, ha), BlockNames(name, convertible, ha);
    ClassNamesMembers(before, convertible, ha, name);
    forall b | b in before
      ensures b in earlier
    {
      ClassNamesMembers(before, convertible, ha, b);
    }
    if forall b :: b in before ==> !Clash(name, b, convertible, ha) && !Clash(b, name, convertible, ha) {
      forall x | x in earlier
        ensures x !in block
      {
        ClassNamesMembers(before, convertible, ha, x);
        var b :| b in before && (x == b || Clash(x, b, convertible, ha));
        SuffixesDiffer(b, name);
        SuffixesDiffer(name, b);
      }
    }
  }

  ghost predicate NamesDiffer(classes: seq<StorageClass>) {
    forall i, j :: 0 <= i < j < |classes| ==> classes[i].name != classes[j].name
  }

  /** One pool class reads, in lower case, as the other with a suffix that is in use. */
  predicate PoolClash(p: string, q: string, convertible: bool, ha: bool) {
    (convertible && ToLower(p) == ToLower(q) + CONVERTIBLE) || (ha && ToLower(p) == ToLower(q) + HA)
  }

  ghost predicate NoPoolClash(nodes: seq<Pools>, convertible: bool, ha: bool) {
    forall p, q :: Offered(nodes, p) && Offered(nodes, q) ==> !PoolClash(p, q, convertible, ha)
  }

  lemma BaseCancels(x: string, y: string, suffix: string)
    ensures BASE + x == BASE + y + suffix <==> x == y + suffix
  {
    assert BASE + y + suffix == BASE + (y + suffix);
    assert (BASE + x)[|BASE|..] == x && (BASE + (y + suffix))[|BASE|..] == y + suffix;
  }

  lemma PoolsClash(p: string, q: string, convertible: bool, ha: bool)
    ensures Clash(NameFor(p), NameFor(q), convertible, ha) <==> PoolClash(p, q, convertible, ha)
  {
    BaseCancels(ToLower(p), ToLower(q), CONVERTIBLE);
    BaseCancels(ToLower(p), ToLower(q), HA);
  }

  lemma ClashOfPools(order: seq<string>, nodes: seq<Pools>, convertible: bool, ha: bool)
    requires Enumerates(order, NameMap(nodes))
    ensures NoClash(order, convertible, ha) <==> NoPoolClash(nodes, convertible, ha)
  {
    if p, q :| Offered(nodes, p) && Offered(nodes, q) && PoolClash(p, q, convertible, ha) {
      NamesExact(nodes, NameFor(p));
      NamesExact(nodes, NameFor(q));
      PoolsClash(p, q, convertible, ha);
    }
    if a, b :| a in order && b in order && Clash(a, b, convertible, ha) {
      NamesExact(nodes, a);
      NamesExact(nodes, b);
      PoolsClash(NameMap(nodes)[a], NameMap(nodes)[b], convertible, ha);
    }
  }

  /** The classes generated for the pools of all nodes have different names exactly when no offered
      pool class reads as another one with a suffix in use. */
  lemma ClassesDifferExactly(template: StorageClass, order: seq<string>, nodes: seq<Pools>, convertible: bool, ha: bool)
    requires Enumerates(order, NameMap(nodes))
    ensures NamesDiffer(Classes(template, order, NameMap(nodes), convertible, ha)) <==>
            NoPoolClash(nodes, convertible, ha)
  {
    var classes, names := Classes(template, order, NameMap(nodes), convertible, ha), ClassNames(order, convertible, ha);
    ClassNamesAre(template, order, NameMap(nodes), convertible, ha);
    NamesDistinctExactly(order, convertible, ha);
    ClashOfPools(order, nodes, convertible, ha);
    assert NamesDiffer(classes) <==> Distinct(names);
  }

  /** Two pool classes that clash: the high-availability class of one has the name of the other's
      plain class. */
  lemma SsdClash(template: StorageClass, order: seq<string>, convertible: bool)
    requires Enumerates(order, NameMap([["ssd", "ssd-ha"]]))
    ensures !NamesDiffer(Classes(template, order, NameMap([["ssd", "ssd-ha"]]), convertible, true))
  {
    var nodes: seq<Pools> := [["ssd", "ssd-ha"]];
    assert nodes[0][0] == "ssd" && nodes[0][1] == "ssd-ha";
    assert Offered(nodes, "ssd") && Offered(nodes, "ssd-ha");
    assert ToLower("ssd-ha") == ToLower("ssd") + HA;
    assert PoolClash("ssd-ha", "ssd", convertible, true);
    ClassesDifferExactly(template, order, nodes, convertible, true);
  }

  // ---------- Ensure ----------

  /** The store after the first n creations: one of a class that is there, or that fails, is
      passed over. */
  function Stored(store: map<string, StorageClass>, classes: seq<StorageClass>, outcomes: nat -> Outcome, n: nat):
    map<string, StorageClass>
    requires n <= |classes|
  {
    if n == 0 then store
    else
      var before, c := Stored(store, classes, outcomes, n - 1), classes[n - 1];
      if c.name in before || outcomes(n - 1) == Refused then before else before[c.name := c]
  }

  /** The first creation under this name that is not refused. */
  ghost predicate FirstCreated(classes: seq<StorageClass>, outcomes: nat -> Outcome, i: nat, name: string)
    requires i < |classes|
  {
    && classes[i].name == name && outcomes(i) != Refused
    && forall j :: 0 <= j < i && classes[j].name == name ==> outcomes(j) == Refused
  }

  /** What was there stays as it was; a name that was not there is there afterwards exactly if some
      creation under it is not refused, and then holds the class of the first of them. */
  lemma {:induction false} StoredExact(store: map<string, StorageClass>, classes: seq<StorageClass>,
                                       outcomes: nat -> Outcome, n: nat, name: string)
    requires n <= |classes|
    ensures var after := Stored(store, classes, outcomes, n);
            && (name in store ==> name in after && after[name] == store[name])
            && (name !in store ==>
                  && (name in after <==> exists i :: 0 <= i < n && FirstCreated(classes, outcomes, i, name))
                  && (forall i :: 0 <= i < n && FirstCreated(classes, outcomes, i, name) ==>
                        name in after && after[name] == classes[i]))
  {
    if n > 0 {
      StoredExact(store, classes, outcomes, n - 1, name);
      if name !in store && classes[n - 1].name == name && name !in Stored(store, classes, outcomes, n - 1) {
        NoneCreated(classes, outcomes, n - 1, name);
        assert outcomes(n - 1) != Refused ==> FirstCreated(classes, outcomes, n - 1, name);
      }
    }
  }

  lemma {:induction false} NoneCreated(classes: seq<StorageClass>, outcomes: nat -> Outcome, n: nat, name: string)
    requires n <= |classes| && forall i :: 0 <= i < n ==> !FirstCreated(classes, outcomes, i, name)
    ensures forall i :: 0 <= i < n && classes[i].name == name ==> outcomes(i) == Refused
  {
    if n > 0 {
      NoneCreated(classes, outcomes, n - 1, name);
      assert !FirstCreated(classes, outcomes, n - 1, name);
    }
  }

  ghost predicate AllStored(after: map<string, StorageClass>, classes: seq<StorageClass>) {
    forall i :: 0 <= i < |classes| ==> classes[i].name in after && after[classes[i].name] == classes[i]
  }

  /** Class i can be stored: its name holds it already, or is free and its creation is not refused. */
  predicate Storable(store: map<string, StorageClass>, classes: seq<StorageClass>, outcomes: nat -> Outcome, i: nat)
    requires i < |classes|
  {
    if classes[i].name in store then store[classes[i].name] == classes[i] else outcomes(i) != Refused
  }

  lemma StoredAlone(store: map<string, StorageClass>, classes: seq<StorageClass>, outcomes: nat -> Outcome, i: nat)
    requires NamesDiffer(classes) && i < |classes|
    ensures var after := Stored(store, classes, outcomes, |classes|);
            classes[i].name in after && after[classes[i].name] == classes[i] <==> Storable(store, classes, outcomes, i)
  {
    StoredExact(store, classes, outcomes, |classes|, classes[i].name);
    forall j | 0 <= j < |classes| && FirstCreated(classes, outcomes, j, classes[i].name)
      ensures j == i
    {
    }
    assert outcomes(i) != Refused ==> FirstCreated(classes, outcomes, i, classes[i].name);
  }

  /** Whatever was there and whichever creations are refused, every class generated for the pools
      ends up stored as generated exactly when no two of them clash and each by itself can be. */
  lemma AllStoredExactly(template: StorageClass, order: seq<string>, nodes: seq<Pools>, convertible: bool, ha: bool,
                         store: map<string, StorageClass>, outcomes: nat -> Outcome)
    requires Enumerates(order, NameMap(nodes)) && Pristine(template)
    ensures var classes := Classes(template, order, NameMap(nodes), convertible, ha);
            AllStored(Stored(store, classes, outcomes, |classes|), classes) <==>
            && NoPoolClash(nodes, convertible, ha)
            && forall i :: 0 <= i < |classes| ==> Storable(store, classes, outcomes, i)
  {
    var classes := Classes(template, order, NameMap(nodes), convertible, ha);
    if NoPoolClash(nodes, convertible, ha) {
      ClassesDifferExactly(template, order, nodes, convertible, ha);
      forall i | 0 <= i < |classes|
        ensures var after := Stored(store, classes, outcomes, |classes|);
                classes[i].name in after && after[classes[i].name] == classes[i] <==>
                Storable(store, classes, outcomes, i)
      {
        StoredAlone(store, classes, outcomes, i);
      }
    } else {
      var p, q :| Offered(nodes, p) && Offered(nodes, q) && PoolClash(p, q, convertible, ha);
      var a, b := ClashingClasses(template, order, nodes, convertible, ha, p, q);
      NotBothStored(Stored(store, classes, outcomes, |classes|), classes, a, b);
    }
  }

  lemma NotBothStored(after: map<string, StorageClass>, classes: seq<StorageClass>, a: StorageClass, b: StorageClass)
    requires a in classes && b in classes && a.name == b.name && a != b
    ensures !AllStored(after, classes)
  {
    var i :| 0 <= i < |classes| && classes[i] == a;
    var j :| 0 <= j < |classes| && classes[j] == b;
  }

  lemma ClashingClasses(template: StorageClass, order: seq<string>, nodes: seq<Pools>, convertible: bool, ha: bool,
                        p: string, q: string) returns (a: StorageClass, b: StorageClass)
    requires Enumerates(order, NameMap(nodes)) && Pristine(template)
    requires Offered(nodes, p) && Offered(nodes, q) && PoolClash(p, q, convertible, ha)
    ensures var classes := Classes(template, order, NameMap(nodes), convertible, ha);
            a in classes && b in classes && a.name == b.name && a != b
  {
    var names, x, y := NameMap(nodes), NameFor(p), NameFor(q);
    PoolsClash(p, q, convertible, ha);
    OfferedIsServed(template, order, nodes, convertible, ha, p);
    OfferedIsServed(template, order, nodes, convertible, ha, q);
    a := Plain(template, x, names[x]);
    b := if ha && x == y + HA then HighlyAvailable(template, y, names[y]) else Convertible(template, y, names[y]);
  }

  /** This class is stored under its own name. */
  ghost predicate StoredAs(after: map<string, StorageClass>, p: string, suffix: string, replicas: string,
                           convertible: string) {
    var name := "hwameistor-storage-lvm-" + ToLower(p) + suffix;
    name in after && Reads(after[name], p, suffix, replicas, convertible)
  }

  /** Where the classes generated for a count all end up stored, the store serves every pool class. */
  lemma StoreServes(template: StorageClass, order: seq<string>, nodes: seq<Pools>, jobNum: nat,
                    after: map<string, StorageClass>, p: string)
    requires Enumerates(order, NameMap(nodes)) && Pristine(template) && Offered(nodes, p)
    requires AllStored(after, Classes(template, order, NameMap(nodes), jobNum >= 1, jobNum >= 2))
    ensures StoredAs(after, p, "", "1", "false")
    ensures jobNum >= 1 ==> StoredAs(after, p, "-convertible", "1", "true")
    ensures jobNum >= 2 ==> StoredAs(after, p, "-ha", "2", "true")
  {
    OfferedReads(template, order, nodes, jobNum >= 1, jobNum >= 2, p);
  }

  ghost predicate Unopposed(store: map<string, StorageClass>, outcomes: nat -> Outcome) {
    store == map[] && forall i :: outcomes(i) != Refused
  }

  /** From an empty store with nothing refused, and pool classes that do not clash. */
  lemma EmptyStoreServes(template: StorageClass, order: seq<string>, nodes: seq<Pools>, jobNum: nat,
                         outcomes: nat -> Outcome)
    requires Enumerates(order, NameMap(nodes)) && Pristine(template) && NoPoolClash(nodes, jobNum >= 1, jobNum >= 2)
    requires Unopposed(map[], outcomes)
    ensures var classes := Classes(template, order, NameMap(nodes), jobNum >= 1, jobNum >= 2);
            AllServed(Stored(map[], classes, outcomes, |classes|), nodes, jobNum)
  {
    var classes := Classes(template, order, NameMap(nodes), jobNum >= 1, jobNum >= 2);
    var after := Stored(map[], classes, outcomes, |classes|);
    AllStoredExactly(template, order, nodes, jobNum >= 1, jobNum >= 2, map[], outcomes);
    forall p | Offered(nodes, p)
      ensures && StoredAs(after, p, "", "1", "false")
              && (jobNum >= 1 ==> StoredAs(after, p, "-convertible", "1", "true"))
              && (jobNum >= 2 ==> StoredAs(after, p, "-ha", "2", "true"))
    {
      StoreServes(template, order, nodes, jobNum, after, p);
    }
  }

  ghost predicate AllServed(after: map<string, StorageClass>, nodes: seq<Pools>, jobNum: nat) {
    forall p :: Offered(nodes, p) ==>
      && StoredAs(after, p, "", "1", "false")
      && (jobNum >= 1 ==> StoredAs(after, p, "-convertible", "1", "true"))
      && (jobNum >= 2 ==> StoredAs(after, p, "-ha", "2", "true"))
  }

  /** The package's template, changed in place, and the classes on the API server. */
  class StorageClassMaintainer {
    var template: StorageClass
    var existing: map<string, StorageClass>

    constructor (existing: map<string, StorageClass>)
      ensures Pristine(template) && this.existing == existing
    {
      template := TEMPLATE;
      this.existing := existing;
    }

    method SetStorageClassTemplate(allowVolumeExpansion: bool, reclaimPolicy: string, fsType: string)
      requires Pristine(template)
      modifies this`template
      ensures Pristine(template)
      ensures template == old(template).(allowVolumeExpansion := allowVolumeExpansion, reclaimPolicy := reclaimPolicy,
                                         parameters := old(template).parameters.(fsType := Some(fsType)))
    {
      template := template.(allowVolumeExpansion := allowVolumeExpansion, reclaimPolicy := reclaimPolicy);
      template := template.(parameters := template.parameters.(fsType := Some(fsType)));
    }

    /** Creates the classes that are missing; one that cannot be created is passed over. */
    method CreateMissing(classes: seq<StorageClass>, outcomes: nat -> Outcome)
      modifies this`existing
      ensures existing == Stored(old(existing), classes, outcomes, |classes|)
    {
      for i := 0 to |classes|
        invariant existing == Stored(old(existing), classes, outcomes, i)
      {
        if classes[i].name in existing || outcomes(i) == Refused {
          continue;
        }
        existing := existing[classes[i].name := classes[i]];
      }
    }

    /** Creates what is missing and never touches what exists. Two-replica classes are asked for
        only once two jobs have been recorded. Nothing is done if the nodes or the classes cannot
        be listed. */
    method Ensure(listed: bool, nodes: seq<Pools>, jobNum: nat, allowVolumeExpansion: bool, reclaimPolicy: string,
                  fsType: string, outcomes: nat -> Outcome) returns (ok: bool)
      requires Pristine(template)
      modifies this
      ensures Pristine(template) && (ok <==> listed)
      ensures !ok ==> template == old(template) && existing == old(existing)
      ensures ok ==> exists order ::
                && Enumerates(order, NameMap(nodes))
                && var classes := Classes(template, order, NameMap(nodes), jobNum >= 1, jobNum >= 2);
                existing == Stored(old(existing), classes, outcomes, |classes|)
      ensures ok && Unopposed(old(existing), outcomes) && NoPoolClash(nodes, jobNum >= 1, jobNum >= 2) ==>
                AllServed(existing, nodes, jobNum)
      ensures ok ==>
                && template.parameters.fsType == Some(fsType)
                && template.allowVolumeExpansion == allowVolumeExpansion && template.reclaimPolicy == reclaimPolicy
    {
      if !listed {
        return false;
      }
      var names := GenerateNames(nodes);
      SetStorageClassTemplate(allowVolumeExpansion, reclaimPolicy, fsType);
      var needConvertible := jobNum >= 1;
      var needHA := jobNum >= 2;
      var classes := GenerateStorageClass(template, names, needConvertible, needHA);
      ghost var order :| Enumerates(order, names) &&
                         classes == Classes(template, order, names, needConvertible, needHA);
      CreateMissing(classes, outcomes);
      if Unopposed(old(existing), outcomes) && NoPoolClash(nodes, needConvertible, needHA) {
        EmptyStoreServes(template, order, nodes, jobNum, outcomes);
      }
      return true;
    }
  }
}
