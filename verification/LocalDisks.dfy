/** Reserving disks and turning the others into claims
    (pkg/install/utils/disk_reserve.go, pkg/install/utils/autocreate_localdiskclaims.go). */
module LocalDisks {
  import opened Sequences
  import opened Wrappers

  const AVAILABLE := "Available"

  /** uid tells a disk from an earlier one of the same name; version counts its changes. */
  datatype Disk = Disk(
    name: string, uid: nat, node: string, path: string, diskType: string, state: string, reserved: bool, version: nat)

  /** One entry of the Cluster's disk reserve configuration. */
  datatype ReserveRule = ReserveRule(node: string, devices: seq<string>)

  datatype Claim = Claim(name: string, node: string, diskType: string)

  // ---------- reserving ----------

  predicate Matches(d: Disk, rules: seq<ReserveRule>) {
    exists rule :: rule in rules && rule.node == d.node && d.path in rule.devices
  }

  method CheckLocalDiskReserveCondition(d: Disk, rules: seq<ReserveRule>) returns (matches: bool)
    ensures matches <==> exists rule :: rule in rules && rule.node == d.node && d.path in rule.devices
  {
    for i := 0 to |rules|
      invariant forall rule :: rule in rules[..i] ==> !(rule.node == d.node && d.path in rule.devices)
    {
      if d.node != rules[i].node {
        continue;
      }
      for j := 0 to |rules[i].devices|
        invariant d.path !in rules[i].devices[..j]
      {
        if d.path == rules[i].devices[j] {
          return true;
        }
      }
    }
    return false;
  }

  /** The store after the first n listed disks have been gone through. */
  function ReservedUpTo(disks: map<string, Disk>, listed: seq<Disk>, n: nat, rules: seq<ReserveRule>): map<string, Disk>
    requires n <= |listed|
  {
    if n == 0 then disks
    else
      var before := ReservedUpTo(disks, listed, n - 1, rules);
      var d := listed[n - 1];
      if Matches(d, rules) then before[d.name := d.(reserved := true, version := d.version + 1)] else before
  }

  /** The listing shows stored disks as they are, each at most once. */
  ghost predicate Lists(listed: seq<Disk>, disks: map<string, Disk>) {
    && (forall i :: 0 <= i < |listed| ==> listed[i].name in disks && disks[listed[i].name] == listed[i])
    && (forall i, j :: 0 <= i < |listed| && 0 <= j < |listed| && i != j ==> listed[i].name != listed[j].name)
  }

  /** The copy d may replace what is stored: it was read from it and nothing changed since. */
  predicate UpToDate(d: Disk, disks: map<string, Disk>) {
    d.name in disks && disks[d.name].uid == d.uid && disks[d.name].version == d.version
  }

  class DiskStore {
    var disks: map<string, Disk>

    constructor (disks: map<string, Disk>)
      ensures this.disks == disks
    {
      this.disks := disks;
    }

    /** An update under optimistic concurrency. */
    method Update(d: Disk, o: Outcome) returns (ok: bool)
      modifies this
      ensures var applies := && o != Refused && d.name in old(disks)
                             && old(disks)[d.name].uid == d.uid && old(disks)[d.name].version == d.version;
              && disks == (if applies then old(disks)[d.name := d.(version := d.version + 1)] else old(disks))
              && (ok <==> applies && o == Done)
    {
      if o == Refused || !UpToDate(d, disks) {
        return false;
      }
      disks := disks[d.name := d.(version := d.version + 1)];
      return o == Done;
    }

    /** Gone through alone, the listing is reserved up to the first update that fails. */
    method ReserveDisk(rules: seq<ReserveRule>, listed: seq<Disk>, outcomes: seq<Outcome>) returns (ok: bool)
      requires Lists(listed, disks) && |outcomes| == |listed|
      modifies this
      ensures ok ==> disks == ReservedUpTo(old(disks), listed, |listed|, rules)
      ensures exists n :: 0 <= n <= |listed| && disks == ReservedUpTo(old(disks), listed, n, rules)
      ensures ok <==> forall i :: 0 <= i < |listed| && Matches(listed[i], rules) ==> outcomes[i] == Done
    {
      ghost var start := disks;
      for i := 0 to |listed|
        invariant disks == ReservedUpTo(start, listed, i, rules)
        invariant forall k :: 0 <= k < i && Matches(listed[k], rules) ==> outcomes[k] == Done
      {
        ListedReserved(start, listed, i, rules, listed[i], i);
        var matches := CheckLocalDiskReserveCondition(listed[i], rules);
        if matches {
          var updated := Update(listed[i].(reserved := true), outcomes[i]);
          if !updated {
            assert disks == ReservedUpTo(start, listed, if outcomes[i] == Refused then i else i + 1, rules);
            return false;
          }
        }
      }
      return true;
    }
  }

  lemma {:induction false} ListedReserved(disks: map<string, Disk>, listed: seq<Disk>, n: nat,
                                          rules: seq<ReserveRule>, d: Disk, i: nat)
    requires n <= |listed| && i < |listed| && listed[i] == d && d.name in disks && disks[d.name] == d
    requires forall j :: 0 <= j < |listed| && j != i ==> listed[j].name != d.name
    ensures var after := ReservedUpTo(disks, listed, n, rules);
            && d.name in after
            && after[d.name] == if i < n && Matches(d, rules) then d.(reserved := true, version := d.version + 1) else d
  {
    if n > 0 {
      ListedReserved(disks, listed, n - 1, rules, d, i);
    }
  }

  lemma {:induction false} UnlistedKept(disks: map<string, Disk>, listed: seq<Disk>, n: nat, rules: seq<ReserveRule>,
                                        name: string)
    requires n <= |listed| && forall i :: 0 <= i < |listed| ==> listed[i].name != name
    ensures var after := ReservedUpTo(disks, listed, n, rules);
            && (name in after <==> name in disks)
            && (name in disks ==> after[name] == disks[name])
  {
    if n > 0 {
      UnlistedKept(disks, listed, n - 1, rules, name);
    }
  }

  ghost predicate MatchedBefore(listed: seq<Disk>, n: nat, rules: seq<ReserveRule>, name: string)
    requires n <= |listed|
  {
    exists i, rule :: && 0 <= i < n && listed[i].name == name
                      && rule in rules && rule.node == listed[i].node && listed[i].path in rule.devices
  }

  /** Whatever disk one looks at, listed or not: a reservation that has gone through the first n
      listed disks has reserved it if it is one of them and matches, and left it alone if not. */
  lemma {:induction false} ReservationExact(disks: map<string, Disk>, listed: seq<Disk>, n: nat,
                                            rules: seq<ReserveRule>, name: string)
    requires n <= |listed| && Lists(listed, disks)
    ensures var after := ReservedUpTo(disks, listed, n, rules);
            && (name in after <==> name in disks)
            && (name in disks ==>
                  after[name] == if MatchedBefore(listed, n, rules, name)
                                 then disks[name].(reserved := true, version := disks[name].version + 1)
                                 else disks[name])
  {
    if i :| 0 <= i < |listed| && listed[i].name == name {
      ListedReserved(disks, listed, n, rules, listed[i], i);
    } else {
      UnlistedKept(disks, listed, n, rules, name);
    }
  }

  // ---------- sifting and claiming ----------

  predicate Claimable(d: Disk) {
    d.state == AVAILABLE && !d.reserved
  }

  function Sifted(disks: seq<Disk>): (r: seq<Disk>)
    ensures forall d :: d in r <==> d in disks && d.state == "Available" && !d.reserved
  {
    if disks == [] then []
    else
      assert disks == Front(disks) + [Last(disks)];
      if Claimable(Last(disks)) then Sifted(Front(disks)) + [Last(disks)] else Sifted(Front(disks))
  }

  method SiftAvailableAndUnreservedDisks(disks: seq<Disk>) returns (sifted: seq<Disk>)
    ensures sifted == Sifted(disks)
  {
    sifted := [];
    for i := 0 to |disks|
      invariant sifted == Sifted(disks[..i])
    {
      FrontOfPrefix(disks, i);
      if disks[i].state == AVAILABLE && !disks[i].reserved {
        sifted := sifted + [disks[i]];
      }
    }
    assert disks[..|disks|] == disks;
  }

  function LowerChar(c: char): char {
    if 'A' <= c <= 'Z' then (c as int + 32) as char else c
  }

  function ToLower(s: string): (r: string)
    ensures |r| == |s|
    ensures forall i :: 0 <= i < |s| ==> r[i] == LowerChar(s[i])
  {
    seq(|s|, i requires 0 <= i < |s| => LowerChar(s[i]))
  }

  const UPPER := "ABCDEFGHIJKLMNOPQRSTUVWXYZ"
  const LOWER := "abcdefghijklmnopqrstuvwxyz"

  lemma LetterPairs(k: nat)
    requires k < 26
    ensures UPPER[k] as int == 65 + k && LOWER[k] as int == 97 + k
  {
  }

  /** Each letter of the one alphabet becomes that of the other; every other character stays. */
  lemma LowersLetters(s: string, i: nat)
    requires i < |s|
    ensures forall k :: 0 <= k < 26 && s[i] == UPPER[k] ==> ToLower(s)[i] == LOWER[k]
    ensures s[i] !in UPPER ==> ToLower(s)[i] == s[i]
    ensures ToLower(s)[i] !in UPPER
  {
    forall k | 0 <= k < 26
      ensures UPPER[k] as int == 65 + k && LOWER[k] as int == 97 + k
    {
      LetterPairs(k);
    }
    if 'A' <= s[i] <= 'Z' {
      assert UPPER[s[i] as int - 65] == s[i];
    }
  }

  function Key(d: Disk): string {
    d.node + ":" + d.diskType
  }

  function ClaimOf(d: Disk): Claim {
    Claim(d.node + "-" + ToLower(d.diskType) + "-" + "claim", d.node, d.diskType)
  }

  /** The indices of the disks that give rise to a claim: the first of each key. */
  function Witnesses(disks: seq<Disk>): seq<nat> {
    if disks == [] then []
    else if Key(Last(disks)) in Keys(Front(disks)) then Witnesses(Front(disks))
    else Witnesses(Front(disks)) + [|disks| - 1]
  }

  function Keys(disks: seq<Disk>): set<string> {
    if disks == [] then {} else Keys(Front(disks)) + {Key(Last(disks))}
  }

  function ClaimsFor(disks: seq<Disk>): seq<Claim> {
    if disks == [] then []
    else if Key(Last(disks)) in Keys(Front(disks)) then ClaimsFor(Front(disks))
    else ClaimsFor(Front(disks)) + [ClaimOf(Last(disks))]
  }

  method GenerateLocalDiskClaims(disks: seq<Disk>) returns (claims: seq<Claim>)
    ensures claims == ClaimsFor(disks)
  {
    claims := [];
    var seen: map<string, bool> := map[];
    for i := 0 to |disks|
      invariant claims == ClaimsFor(disks[..i])
      invariant seen.Keys == Keys(disks[..i])
      invariant forall key :: key in seen ==> seen[key]
    {
      FrontOfPrefix(disks, i);
      var key := disks[i].node + ":" + disks[i].diskType;
      if key in seen && seen[key] {
        continue;
      }
      var name := disks[i].node + "-" + ToLower(disks[i].diskType) + "-" + "claim";
      claims := claims + [Claim(name, disks[i].node, disks[i].diskType)];
      seen := seen[key := true];
    }
    assert disks[..|disks|] == disks;
  }

  function WithClaims(store: map<string, Claim>, claims: seq<Claim>, n: nat): map<string, Claim>
    requires n <= |claims|
  {
    if n == 0 then store else WithClaims(store, claims, n - 1)[claims[n - 1].name := claims[n - 1]]
  }

  function ClaimNames(claims: seq<Claim>): set<string> {
    if claims == [] then {} else ClaimNames(Front(claims)) + {Last(claims).name}
  }

  /** No wanted name is taken, and no two are the same. */
  ghost predicate AllNew(wanted: seq<Claim>, taken: set<string>) {
    && (forall i :: 0 <= i < |wanted| ==> wanted[i].name !in taken)
    && (forall i, j :: 0 <= i < j < |wanted| ==> wanted[i].name != wanted[j].name)
  }

  lemma {:induction false} ClaimNamesHas(claims: seq<Claim>, name: string)
    ensures name in ClaimNames(claims) <==> exists i :: 0 <= i < |claims| && claims[i].name == name
  {
    if claims != [] {
      ClaimNamesHas(Front(claims), name);
      if i :| 0 <= i < |claims| && claims[i].name == name {
        assert i < |claims| - 1 ==> Front(claims)[i].name == name;
      }
    }
  }

  /** The next name is new besides the first k exactly when it is neither taken nor among them. */
  lemma AllNewNext(wanted: seq<Claim>, taken: set<string>, k: nat)
    requires k < |wanted|
    ensures AllNew(wanted[..k + 1], taken) <==>
            AllNew(wanted[..k], taken) && wanted[k].name !in taken + ClaimNames(wanted[..k])
    ensures ClaimNames(wanted[..k + 1]) == ClaimNames(wanted[..k]) + {wanted[k].name}
    ensures AllNew(wanted, taken) ==> AllNew(wanted[..k + 1], taken)
  {
    FrontOfPrefix(wanted, k);
    ClaimNamesHas(wanted[..k], wanted[k].name);
    var before, after := wanted[..k], wanted[..k + 1];
    assert forall i :: 0 <= i < k ==> before[i] == after[i];
    if AllNew(after, taken) {
      assert after[k].name !in taken;
    }
  }

  class ClaimStore {
    var claims: map<string, Claim>

    constructor ()
      ensures claims == map[]
    {
      claims := map[];
    }

    /** Creation stops at the first claim that is refused or already there: with every call
        succeeding, a pass completes exactly when all the names it wants are new and different. */
    method CreateLocalDiskClaims(wanted: seq<Claim>, outcomes: seq<Outcome>) returns (ok: bool)
      requires |outcomes| == |wanted|
      modifies this
      ensures exists n :: 0 <= n <= |wanted| && claims == WithClaims(old(claims), wanted, n)
                          && AllNew(wanted[..n], old(claims).Keys)
      ensures ok ==> claims == WithClaims(old(claims), wanted, |wanted|)
      ensures ok ==> forall c :: c in wanted ==> c.name in claims && claims[c.name] == c
      ensures forall name :: name in old(claims) ==> name in claims && claims[name] == old(claims)[name]
      ensures ok <==> AllNew(wanted, old(claims).Keys) && forall i :: 0 <= i < |outcomes| ==> outcomes[i] == Done
    {
      ghost var start := claims;
      for i := 0 to |wanted|
        invariant claims == WithClaims(start, wanted, i)
        invariant claims.Keys == start.Keys + ClaimNames(wanted[..i])
        invariant AllNew(wanted[..i], start.Keys)
        invariant forall name :: name in start ==> name in claims && claims[name] == start[name]
        invariant forall k :: 0 <= k < i ==> wanted[k].name in claims && claims[wanted[k].name] == wanted[k]
        invariant forall k :: 0 <= k < i ==> outcomes[k] == Done
      {
        AllNewNext(wanted, start.Keys, i);
        if wanted[i].name in claims || outcomes[i] == Refused {
          return false;
        }
        claims := claims[wanted[i].name := wanted[i]];
        if outcomes[i] != Done {
          assert claims == WithClaims(start, wanted, i + 1);
          return false;
        }
      }
      assert wanted[..|wanted|] == wanted;
      return true;
    }
  }

  // ---------- what the claims cover ----------

  predicate SamePair(a: Disk, b: Disk) {
    a.node == b.node && a.diskType == b.diskType
  }

  ghost predicate NodesPlain(disks: seq<Disk>) {
    forall d :: d in disks ==> ':' !in d.node
  }

  /** A text without the separator splits off uniquely. */
  lemma SplitUnique(a: string, b: string, c: string, d: string, separator: char)
    requires a + [separator] + b == c + [separator] + d
    requires separator !in a && separator !in c
    ensures a == c && b == d
  {
    var s := a + [separator] + b;
    assert s[|a|] == separator && s[|c|] == separator;
    assert forall i :: 0 <= i < |c| ==> s[i] == c[i];
    assert forall i :: 0 <= i < |a| ==> s[i] == a[i];
    assert |a| == |c|;
    assert a == s[..|a|] && c == s[..|c|];
    assert b == s[|a| + 1..] && d == s[|c| + 1..];
  }

  lemma SplitUniqueAtEnd(a: string, b: string, c: string, d: string, separator: char)
    requires a + [separator] + b == c + [separator] + d
    requires separator !in b && separator !in d
    ensures a == c && b == d
  {
    var s := a + [separator] + b;
    assert s[|a|] == separator && s[|c|] == separator;
    assert forall i :: |a| < i < |s| ==> s[i] == b[i - |a| - 1];
    assert forall i :: |c| < i < |s| ==> s[i] == d[i - |c| - 1];
    assert |a| == |c|;
    assert a == s[..|a|] && c == s[..|c|];
    assert b == s[|a| + 1..] && d == s[|c| + 1..];
  }

  lemma KeyIsPair(a: Disk, b: Disk)
    requires ':' !in a.node && ':' !in b.node
    ensures Key(a) == Key(b) <==> SamePair(a, b)
  {
    if Key(a) == Key(b) {
      SplitUnique(a.node, a.diskType, b.node, b.diskType, ':');
    }
  }

  lemma {:induction false} KeysHas(disks: seq<Disk>, key: string)
    ensures key in Keys(disks) <==> exists i :: 0 <= i < |disks| && Key(disks[i]) == key
  {
    if disks != [] {
      KeysHas(Front(disks), key);
      assert forall i :: 0 <= i < |disks| - 1 ==> Front(disks)[i] == disks[i];
      if i :| 0 <= i < |disks| && Key(disks[i]) == key {
        assert i < |disks| - 1 ==> Key(Front(disks)[i]) == key;
      }
    }
  }

  ghost predicate Ascending(w: seq<nat>, bound: nat) {
    && (forall k :: 0 <= k < |w| ==> w[k] < bound)
    && (forall k, l :: 0 <= k < l < |w| ==> w[k] < w[l])
  }

  lemma {:induction false} WitnessesAscend(disks: seq<Disk>)
    ensures Ascending(Witnesses(disks), |disks|)
  {
    if disks != [] {
      WitnessesAscend(Front(disks));
    }
  }

  /** The claims are those of the witnesses, in order. */
  lemma {:induction false} ClaimsOfWitnesses(disks: seq<Disk>)
    ensures var w := Witnesses(disks);
            && |ClaimsFor(disks)| == |w|
            && forall k :: 0 <= k < |w| ==> w[k] < |disks| && ClaimsFor(disks)[k] == ClaimOf(disks[w[k]])
  {
    if disks != [] {
      ClaimsOfWitnesses(Front(disks));
    }
  }

  lemma ClaimOfWitness(disks: seq<Disk>, k: nat)
    requires k < |ClaimsFor(disks)|
    ensures k < |Witnesses(disks)| && Witnesses(disks)[k] < |disks|
    ensures ClaimsFor(disks)[k] == ClaimOf(disks[Witnesses(disks)[k]])
  {
    ClaimsOfWitnesses(disks);
  }

  ghost predicate FirstOfItsPair(disks: seq<Disk>, i: nat)
    requires i < |disks|
  {
    forall j :: 0 <= j < i ==> !SamePair(disks[j], disks[i])
  }

  lemma {:induction false} FirstOfItsKey(disks: seq<Disk>, i: nat)
    requires NodesPlain(disks) && i < |disks|
    ensures Key(disks[i]) in Keys(disks[..i]) <==> !FirstOfItsPair(disks, i)
  {
    var before := disks[..i];
    KeysHas(before, Key(disks[i]));
    forall j | 0 <= j < i
      ensures before[j] == disks[j] && (Key(before[j]) == Key(disks[i]) <==> SamePair(disks[j], disks[i]))
    {
      assert disks[j] in disks && disks[i] in disks;
      KeyIsPair(disks[j], disks[i]);
    }
  }

  /** A disk is a witness exactly when no earlier disk has its node and type. */
  lemma {:induction false} WitnessesAreFirst(disks: seq<Disk>, i: nat)
    requires NodesPlain(disks) && i < |disks|
    ensures i in Witnesses(disks) <==> FirstOfItsPair(disks, i)
  {
    var before := Front(disks);
    WitnessesAscend(before);
    if i == |disks| - 1 {
      FirstOfItsKey(disks, i);
    } else {
      assert forall d :: d in before ==> d in disks;
      WitnessesAreFirst(before, i);
      assert FirstOfItsPair(before, i) <==> FirstOfItsPair(disks, i) by {
        assert forall j :: 0 <= j <= i ==> before[j] == disks[j];
      }
    }
  }

  predicate ClaimFits(c: Claim, d: Disk) {
    c.node == d.node && c.diskType == d.diskType
  }

  /** Every claim comes from a disk that no earlier disk of its node and type precedes, in the
      order of the disks; every disk has exactly one claim of its node and type. */
  lemma ClaimsCoverExactly(disks: seq<Disk>)
    requires NodesPlain(disks)
    ensures var claims, w := ClaimsFor(disks), Witnesses(disks);
            && |claims| == |w|
            && (forall k :: 0 <= k < |w| ==>
                  && w[k] < |disks| && FirstOfItsPair(disks, w[k])
                  && claims[k] == Claim(disks[w[k]].node + "-" + ToLower(disks[w[k]].diskType) + "-claim",
                                        disks[w[k]].node, disks[w[k]].diskType))
            && Ascending(w, |disks|)
    ensures forall d :: d in disks ==> exists k :: 0 <= k < |ClaimsFor(disks)| && ClaimFits(ClaimsFor(disks)[k], d)
    ensures forall d, k, l | 0 <= k < |ClaimsFor(disks)| && 0 <= l < |ClaimsFor(disks)| ::
              ClaimFits(ClaimsFor(disks)[k], d) && ClaimFits(ClaimsFor(disks)[l], d) ==> k == l
  {
    var claims, w := ClaimsFor(disks), Witnesses(disks);
    WitnessesAscend(disks);
    ClaimsOfWitnesses(disks);
    forall k | 0 <= k < |w|
      ensures FirstOfItsPair(disks, w[k])
    {
      assert w[k] in w;
      WitnessesAreFirst(disks, w[k]);
    }
    forall d | d in disks
      ensures exists k :: 0 <= k < |claims| && ClaimFits(claims[k], d)
    {
      var i :| 0 <= i < |disks| && disks[i] == d;
      var f := FirstOfPair(disks, i);
      WitnessesAreFirst(disks, f);
      var k :| 0 <= k < |w| && w[k] == f;
      assert ClaimFits(claims[k], d);
    }
    forall d, k, l | 0 <= k < |claims| && 0 <= l < |claims| && ClaimFits(claims[k], d) && ClaimFits(claims[l], d)
      ensures k == l
    {
      assert SamePair(disks[w[k]], disks[w[l]]);
    }
  }

  lemma {:induction false} FirstOfPair(disks: seq<Disk>, i: nat) returns (f: nat)
    requires i < |disks|
    ensures f <= i && SamePair(disks[f], disks[i])
    ensures FirstOfItsPair(disks, f)
  {
    f := i;
    if j :| 0 <= j < i && SamePair(disks[j], disks[i]) {
      f := FirstOfPair(disks, j);
    }
  }

  lemma NoDashInLower(s: string)
    requires '-' !in s
    ensures '-' !in ToLower(s)
  {
  }

  /** Where types carry no dash and do not differ by case alone, no two claims share a name. */
  lemma ClaimNamesDistinct(disks: seq<Disk>, k: nat, l: nat)
    requires NodesPlain(disks) && k < l < |ClaimsFor(disks)|
    requires forall d :: d in disks ==> '-' !in d.diskType
    requires forall d, e :: d in disks && e in disks && ToLower(d.diskType) == ToLower(e.diskType) ==>
               d.diskType == e.diskType
    ensures ClaimsFor(disks)[k].name != ClaimsFor(disks)[l].name
  {
    ClaimsCoverExactly(disks);
    var w := Witnesses(disks);
    var a, b := disks[w[k]], disks[w[l]];
    assert !SamePair(a, b);
    if ClaimOf(a).name == ClaimOf(b).name {
      var x, y := a.node + "-" + ToLower(a.diskType), b.node + "-" + ToLower(b.diskType);
      assert ClaimOf(a).name == x + ['-'] + "claim" && ClaimOf(b).name == y + ['-'] + "claim";
      SplitUniqueAtEnd(x, "claim", y, "claim", '-');
      NoDashInLower(a.diskType);
      NoDashInLower(b.diskType);
      SplitUniqueAtEnd(a.node, ToLower(a.diskType), b.node, ToLower(b.diskType), '-');
      assert false;
    }
  }
}
