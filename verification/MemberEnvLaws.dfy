/** What the merge promises: an exact interleaving, placed as far left as it can be,
    stable under repetition, and predictable over any run of configurations. */
module MemberEnvLaws {
  import opened Sequences
  import opened MemberEnv

  // ---------- projections ----------

  lemma {:induction false} OnlyConcat(a: seq<EnvVar>, b: seq<EnvVar>, names: set<string>)
    ensures Only(a + b, names) == Only(a, names) + Only(b, names)
    ensures Without(a + b, names) == Without(a, names) + Without(b, names)
  {
    if b == [] {
      assert a + b == a;
    } else {
      assert Front(a + b) == a + Front(b) && Last(a + b) == Last(b);
      OnlyConcat(a, Front(b), names);
    }
  }

  lemma {:induction false} OnlyOfOwnNames(env: seq<EnvVar>, names: set<string>)
    requires Names(env) <= names
    ensures Only(env, names) == env && Without(env, names) == []
  {
    if env != [] {
      OnlyOfOwnNames(Front(env), names);
      Rejoin(env);
    }
  }

  lemma {:induction false} OnlyOfOtherNames(env: seq<EnvVar>, names: set<string>)
    requires Names(env) !! names
    ensures Only(env, names) == [] && Without(env, names) == env
  {
    if env != [] {
      OnlyOfOtherNames(Front(env), names);
      Rejoin(env);
    }
  }

  /** Looking at one name sees through a coarser projection. */
  lemma {:induction false} OnlyThrough(env: seq<EnvVar>, names: set<string>, x: string)
    ensures x in names ==> Only(Only(env, names), {x}) == Only(env, {x})
    ensures x !in names ==> Only(Without(env, names), {x}) == Only(env, {x})
  {
    if env != [] {
      OnlyThrough(Front(env), names, x);
      var item := Last(env);
      assert Only([item], {x}) == if item.name == x then [item] else [];
      OnlyConcat(Only(Front(env), names), [item], {x});
      OnlyConcat(Without(Front(env), names), [item], {x});
    }
  }

  lemma {:induction false} OnlyNames(env: seq<EnvVar>, names: set<string>)
    ensures Names(Only(env, names)) == Names(env) * names
    ensures Names(Without(env, names)) == Names(env) - names
  {
    if env != [] {
      OnlyNames(Front(env), names);
      NamesConcat(Only(Front(env), names), [Last(env)]);
      NamesConcat(Without(Front(env), names), [Last(env)]);
    }
  }

  lemma {:induction false} NamesConcat(a: seq<EnvVar>, b: seq<EnvVar>)
    ensures Names(a + b) == Names(a) + Names(b)
  {
    if b == [] {
      assert a + b == a;
    } else {
      assert Front(a + b) == a + Front(b) && Last(a + b) == Last(b);
      NamesConcat(a, Front(b));
    }
  }

  lemma {:induction false} NamesOfSlice(env: seq<EnvVar>, i: nat, j: nat)
    requires i <= j <= |env|
    ensures Names(env[i..j]) <= Names(env)
    decreases j
  {
    if i < j {
      NamesOfSlice(env, i, j - 1);
      NameAt(env, j - 1);
      assert Front(env[i..j]) == env[i..j - 1];
    }
  }

  lemma SliceIsConfigured(wanted: seq<EnvVar>, i: nat, j: nat)
    requires i <= j <= |wanted|
    ensures Only(wanted[i..j], Names(wanted)) == wanted[i..j]
    ensures Without(wanted[i..j], Names(wanted)) == []
  {
    NamesOfSlice(wanted, i, j);
    OnlyOfOwnNames(wanted[i..j], Names(wanted));
  }

  /** Appending a run of desired entries extends the configured projection by that run only. */
  lemma AppendRun(body: seq<EnvVar>, wanted: seq<EnvVar>, i: nat, j: nat, names: set<string>)
    requires i <= j <= |wanted|
    requires Only(body, names) == wanted[..i]
    requires Only(wanted[i..j], names) == wanted[i..j] && Without(wanted[i..j], names) == []
    ensures Only(body + wanted[i..j], names) == wanted[..j]
    ensures Without(body + wanted[i..j], names) == Without(body, names)
  {
    OnlyConcat(body, wanted[i..j], names);
    assert wanted[..i] + wanted[i..j] == wanted[..j];
  }

  // ---------- the merge interleaves exactly ----------

  lemma {:induction false} BodyInterleaves(current: seq<EnvVar>, wanted: seq<EnvVar>)
    ensures Only(Body(current, wanted), Names(wanted)) == wanted[..Emitted(current, wanted)]
    ensures Without(Body(current, wanted), Names(wanted)) == Without(current, Names(wanted))
  {
    if current != [] {
      var before, item := Front(current), Last(current);
      var n, n' := Emitted(before, wanted), Emitted(current, wanted);
      BodyInterleaves(before, wanted);
      if item.name !in Names(wanted) {
        AppendOther(Body(before, wanted), item, Names(wanted));
        NotFound(wanted, n, item.name);
      } else {
        SliceIsConfigured(wanted, n, n');
        AppendRun(Body(before, wanted), wanted, n, n', Names(wanted));
      }
    }
  }

  lemma AppendOther(body: seq<EnvVar>, item: EnvVar, names: set<string>)
    requires item.name !in names
    ensures Only(body + [item], names) == Only(body, names)
    ensures Without(body + [item], names) == Without(body, names) + [item]
  {
    FrontOfSnoc(body, item);
  }

  /** Configured names read the desired list verbatim; every other entry of the live
      list survives verbatim; nothing is lost or added. */
  lemma MergeInterleaves(current: seq<EnvVar>, wanted: seq<EnvVar>)
    ensures Only(Merge(current, wanted), Names(wanted)) == wanted
    ensures Without(Merge(current, wanted), Names(wanted)) == Without(current, Names(wanted))
    ensures |Merge(current, wanted)| == |wanted| + |Without(current, Names(wanted))|
  {
    var n := Emitted(current, wanted);
    BodyInterleaves(current, wanted);
    SliceIsConfigured(wanted, n, |wanted|);
    assert wanted[n..|wanted|] == wanted[n..] && wanted[..|wanted|] == wanted;
    AppendRun(Body(current, wanted), wanted, n, |wanted|, Names(wanted));
    LengthSplits(Merge(current, wanted), Names(wanted));
  }

  lemma {:induction false} LengthSplits(env: seq<EnvVar>, names: set<string>)
    ensures |env| == |Only(env, names)| + |Without(env, names)|
  {
    if env != [] {
      LengthSplits(Front(env), names);
    }
  }

  // ---------- leftmost placement ----------

  /** e is the length of the shortest prefix of b in which a embeds. */
  ghost predicate ShortestEmbedding(a: seq<string>, b: seq<string>, e: nat) {
    e <= |b| && forall n :: 0 <= n <= |b| ==> (Embeds(a, b, n) <==> e <= n)
  }

  /** The names the merge can honour in the order of the live list: a name is passed
      over exactly when the desired order leaves no room for it. */
  function Honoured(names: seq<string>, b: seq<string>): seq<string> {
    if names == [] then []
    else
      var kept := Honoured(Front(names), b);
      if Embeds(kept + [Last(names)], b, |b|) then kept + [Last(names)] else kept
  }

  lemma {:induction false} HonouredWhole(names: seq<string>, b: seq<string>)
    requires Embeds(names, b, |b|)
    ensures Honoured(names, b) == names
  {
    if names != [] {
      EmbedsFront(names, b, |b|);
      HonouredWhole(Front(names), b);
      Rejoin(names);
    }
  }

  /** One more name moves the shortest embedding to the first later occurrence. */
  lemma ShortestEmbeddingSnoc(a: seq<string>, x: string, wanted: seq<EnvVar>, e: nat)
    requires ShortestEmbedding(a, NameSeq(wanted), e)
    ensures var b, i := NameSeq(wanted), FirstFrom(wanted, e, x);
            if i < |wanted| then Embeds(a + [x], b, |b|) && ShortestEmbedding(a + [x], b, i + 1)
            else !Embeds(a + [x], b, |b|)
  {
    var b, i := NameSeq(wanted), FirstFrom(wanted, e, x);
    forall n | 0 <= n <= |b|
      ensures Embeds(a + [x], b, n) <==> i < n
    {
      EmbedsSnoc(a, x, b, n);
      if i < n {
        assert b[i] == x && Embeds(a, b, i);
      } else if k :| 0 <= k < n && b[k] == x && Embeds(a, b, k) {
        FirstFromIsFirst(wanted, e, x, k);
      }
    }
  }

  lemma HonouredSnoc(read: seq<string>, x: string, wanted: seq<EnvVar>, e: nat)
    requires ShortestEmbedding(Honoured(read, NameSeq(wanted)), NameSeq(wanted), e)
    ensures var i := FirstFrom(wanted, e, x);
            ShortestEmbedding(
              Honoured(read + [x], NameSeq(wanted)), NameSeq(wanted), if i < |wanted| then i + 1 else e)
  {
    FrontOfSnoc(read, x);
    ShortestEmbeddingSnoc(Honoured(read, NameSeq(wanted)), x, wanted, e);
  }

  lemma {:induction false} EmittedIsShortest(current: seq<EnvVar>, wanted: seq<EnvVar>)
    ensures ShortestEmbedding(
              Honoured(NameSeq(Only(current, Names(wanted))), NameSeq(wanted)), NameSeq(wanted),
              Emitted(current, wanted))
  {
    if current != [] {
      var before, item, names := Front(current), Last(current), Names(wanted);
      var e := Emitted(before, wanted);
      EmittedIsShortest(before, wanted);
      if item.name in names {
        var read := NameSeq(Only(before, names));
        assert NameSeq(Only(current, names)) == read + [item.name];
        HonouredSnoc(read, item.name, wanted, e);
      } else {
        NotFound(wanted, e, item.name);
      }
    }
  }

  lemma {:induction false} BodyPrefix(current: seq<EnvVar>, wanted: seq<EnvVar>, k: nat)
    requires k <= |current|
    ensures Body(current[..k], wanted) <= Body(current, wanted)
  {
    if k == |current| {
      assert current[..k] == current;
    } else {
      assert Front(current)[..k] == current[..k];
      BodyPrefix(Front(current), wanted, k);
    }
  }

  /** A kept entry lands behind exactly the kept entries that preceded it and a prefix of the desired list. */
  lemma Placement(current: seq<EnvVar>, wanted: seq<EnvVar>, k: nat)
    requires k < |current| && current[k].name !in Names(wanted)
    ensures var ahead := Body(current[..k], wanted);
            && ahead + [current[k]] <= Merge(current, wanted)
            && Only(ahead, Names(wanted)) == wanted[..Emitted(current[..k], wanted)]
            && Without(ahead, Names(wanted)) == Without(current[..k], Names(wanted))
  {
    BodyInterleaves(current[..k], wanted);
    BodyPrefix(current, wanted, k + 1);
    FrontOfPrefix(current, k);
  }

  /** That prefix is the shortest one that embeds the configured names read before the
      entry (those of them the desired order can honour): no placement that keeps the
      order of the live list puts fewer desired entries first. */
  lemma LeftmostPlacement(current: seq<EnvVar>, wanted: seq<EnvVar>, k: nat)
    requires k <= |current|
    ensures var e := Emitted(current[..k], wanted);
            var read, b := NameSeq(Only(current[..k], Names(wanted))), NameSeq(wanted);
            && ShortestEmbedding(Honoured(read, b), b, e)
            && (Embeds(read, b, |b|) ==> ShortestEmbedding(read, b, e))
  {
    EmittedIsShortest(current[..k], wanted);
    var read, b := NameSeq(Only(current[..k], Names(wanted))), NameSeq(wanted);
    if Embeds(read, b, |b|) {
      HonouredWhole(read, b);
    }
  }

  /** Any other placement of a kept entry that honours the configured names read before it
      puts at least as many desired entries first. */
  lemma FewestDesiredFirst(current: seq<EnvVar>, wanted: seq<EnvVar>, k: nat, other: seq<EnvVar>, ahead: seq<EnvVar>)
    requires k < |current| && current[k].name !in Names(wanted)
    requires ahead + [current[k]] <= other && Only(other, Names(wanted)) == wanted
    requires var before := NameSeq(Only(ahead, Names(wanted)));
             Embeds(NameSeq(Only(current[..k], Names(wanted))), before, |before|)
    ensures |Only(Body(current[..k], wanted), Names(wanted))| <= |Only(ahead, Names(wanted))|
  {
    var names, read, b := Names(wanted), NameSeq(Only(current[..k], Names(wanted))), NameSeq(wanted);
    var before := NameSeq(Only(ahead, names));
    assert other == ahead + other[|ahead|..];
    OnlyConcat(ahead, other[|ahead|..], names);
    PrefixNames(Only(ahead, names), wanted);
    EmbedsInPrefix(read, before, b, |before|);
    EmbedsGrows(read, b, |before|, |b|);
    LeftmostPlacement(current, wanted, k);
    BodyInterleaves(current[..k], wanted);
  }

  lemma PrefixNames(a: seq<EnvVar>, b: seq<EnvVar>)
    requires a <= b
    ensures NameSeq(a) <= NameSeq(b)
  {
  }

  // ---------- these properties leave only one list ----------

  /** For each kept entry, how many configured entries stand before it. */
  function Ahead(env: seq<EnvVar>, names: set<string>): seq<nat> {
    if env == [] then []
    else if Last(env).name in names then Ahead(Front(env), names)
    else Ahead(Front(env), names) + [|Only(Front(env), names)|]
  }

  /** counts gives, for each kept entry of current, the length of the shortest prefix of the
      desired list that embeds the configured names read before that entry. */
  ghost predicate LeftmostCounts(counts: seq<nat>, current: seq<EnvVar>, wanted: seq<EnvVar>)
    decreases |current|
  {
    if current == [] then counts == []
    else if Last(current).name in Names(wanted) then LeftmostCounts(counts, Front(current), wanted)
    else
      && counts != []
      && ShortestEmbedding(
           Honoured(NameSeq(Only(Front(current), Names(wanted))), NameSeq(wanted)), NameSeq(wanted), Last(counts))
      && LeftmostCounts(Front(counts), Front(current), wanted)
  }

  lemma {:induction false} LeftmostCountsUnique(a: seq<nat>, b: seq<nat>, current: seq<EnvVar>, wanted: seq<EnvVar>)
    requires LeftmostCounts(a, current, wanted) && LeftmostCounts(b, current, wanted)
    ensures a == b
    decreases |current|
  {
    if current != [] {
      if Last(current).name in Names(wanted) {
        LeftmostCountsUnique(a, b, Front(current), wanted);
      } else {
        LeftmostCountsUnique(Front(a), Front(b), Front(current), wanted);
        SameShortest(Honoured(NameSeq(Only(Front(current), Names(wanted))), NameSeq(wanted)), NameSeq(wanted),
                     Last(a), Last(b));
        Rejoin(a);
        Rejoin(b);
      }
    }
  }

  lemma SameShortest(a: seq<string>, b: seq<string>, e: nat, f: nat)
    requires ShortestEmbedding(a, b, e) && ShortestEmbedding(a, b, f)
    ensures e == f
  {
    assert Embeds(a, b, e) && Embeds(a, b, f);
  }

  /** A list is determined by its two projections and how they interleave. */
  lemma {:induction false} Determined(a: seq<EnvVar>, b: seq<EnvVar>, names: set<string>)
    requires Only(a, names) == Only(b, names) && Without(a, names) == Without(b, names)
    requires Ahead(a, names) == Ahead(b, names)
    ensures a == b
  {
    LengthSplits(a, names);
    LengthSplits(b, names);
    if a != [] {
      var x, y := Last(a), Last(b);
      AheadBounded(Front(a), names);
      AheadBounded(Front(b), names);
      if x.name in names && y.name in names {
        SnocEqual(Only(Front(a), names), x, Only(Front(b), names), y);
        Determined(Front(a), Front(b), names);
      } else if x.name !in names && y.name !in names {
        SnocEqual(Without(Front(a), names), x, Without(Front(b), names), y);
        SnocEqual(Ahead(Front(a), names), |Only(Front(a), names)|, Ahead(Front(b), names), |Only(Front(b), names)|);
        Determined(Front(a), Front(b), names);
      } else if x.name in names {
        FrontOfSnoc(Ahead(Front(b), names), |Only(Front(b), names)|);
      } else {
        FrontOfSnoc(Ahead(Front(a), names), |Only(Front(a), names)|);
      }
      Rejoin(a);
      Rejoin(b);
    }
  }

  lemma SnocEqual<T>(a: seq<T>, x: T, b: seq<T>, y: T)
    requires a + [x] == b + [y]
    ensures a == b && x == y
  {
    FrontOfSnoc(a, x);
    FrontOfSnoc(b, y);
  }

  lemma {:induction false} AheadBounded(env: seq<EnvVar>, names: set<string>)
    ensures |Ahead(env, names)| == |Without(env, names)|
    ensures forall i :: 0 <= i < |Ahead(env, names)| ==> Ahead(env, names)[i] <= |Only(env, names)|
  {
    if env != [] {
      AheadBounded(Front(env), names);
    }
  }

  lemma {:induction false} AheadOfRun(body: seq<EnvVar>, wanted: seq<EnvVar>, i: nat, j: nat, names: set<string>)
    requires i <= j <= |wanted| && Names(wanted) <= names
    ensures Ahead(body + wanted[i..j], names) == Ahead(body, names)
    decreases j
  {
    if i == j {
      assert body + wanted[i..j] == body;
    } else {
      SliceSnoc(body, wanted, i, j);
      FrontOfSnoc(body + wanted[i..j - 1], wanted[j - 1]);
      NameAt(wanted, j - 1);
      AheadOfRun(body, wanted, i, j - 1, names);
    }
  }

  lemma {:induction false} AheadOfBody(current: seq<EnvVar>, wanted: seq<EnvVar>)
    ensures LeftmostCounts(Ahead(Body(current, wanted), Names(wanted)), current, wanted)
  {
    if current != [] {
      var before, item, names := Front(current), Last(current), Names(wanted);
      AheadOfBody(before, wanted);
      if item.name in names {
        AheadOfRun(Body(before, wanted), wanted, Emitted(before, wanted), Emitted(current, wanted), names);
      } else {
        BodyInterleaves(before, wanted);
        EmittedIsShortest(before, wanted);
        FrontOfSnoc(Body(before, wanted), item);
        FrontOfSnoc(Ahead(Body(before, wanted), names), Emitted(before, wanted));
      }
    }
  }

  /** The merge is the one list that reads the desired entries verbatim, keeps the others
      verbatim, and puts each kept entry as far left as the order of the live list allows. */
  lemma MergeCharacterised(current: seq<EnvVar>, wanted: seq<EnvVar>, m: seq<EnvVar>)
    ensures m == Merge(current, wanted) <==>
            && Only(m, Names(wanted)) == wanted
            && Without(m, Names(wanted)) == Without(current, Names(wanted))
            && LeftmostCounts(Ahead(m, Names(wanted)), current, wanted)
  {
    var n := Emitted(current, wanted);
    MergeInterleaves(current, wanted);
    AheadOfBody(current, wanted);
    WholeSuffix(wanted, n);
    AheadOfRun(Body(current, wanted), wanted, n, |wanted|, Names(wanted));
    if && Only(m, Names(wanted)) == wanted
       && Without(m, Names(wanted)) == Without(current, Names(wanted))
       && LeftmostCounts(Ahead(m, Names(wanted)), current, wanted) {
      LeftmostCountsUnique(
        Ahead(m, Names(wanted)), Ahead(Merge(current, wanted), Names(wanted)), current, wanted);
      Determined(m, Merge(current, wanted), Names(wanted));
    }
  }

  // ---------- fixed points and absorption ----------

  /** env with its k-th configured entry replaced by wanted[k]. */
  function Replace(env: seq<EnvVar>, names: set<string>, wanted: seq<EnvVar>): seq<EnvVar>
    requires |Only(env, names)| <= |wanted|
  {
    if env == [] then []
    else Replace(Front(env), names, wanted) +
         [if Last(env).name in names then wanted[|Only(Front(env), names)|] else Last(env)]
  }

  lemma ReplaceSnoc(env: seq<EnvVar>, item: EnvVar, names: set<string>, wanted: seq<EnvVar>)
    requires |Only(env, names)| + (if item.name in names then 1 else 0) <= |wanted|
    ensures |Only(env + [item], names)| == |Only(env, names)| + if item.name in names then 1 else 0
    ensures Replace(env + [item], names, wanted) ==
            Replace(env, names, wanted) + [if item.name in names then wanted[|Only(env, names)|] else item]
  {
    FrontOfSnoc(env, item);
  }

  lemma {:induction false} ReplaceRun(env: seq<EnvVar>, w1: seq<EnvVar>, w2: seq<EnvVar>, names: set<string>, i: nat,
                                      j: nat)
    requires |w1| == |w2| && Names(w1) <= names
    requires |Only(env, names)| == i <= j <= |w1|
    ensures |Only(env + w1[i..j], names)| == j
    ensures Replace(env + w1[i..j], names, w2) == Replace(env, names, w2) + w2[i..j]
    decreases j
  {
    if i == j {
      assert env + w1[i..j] == env && w2[i..j] == [];
    } else {
      ReplaceRun(env, w1, w2, names, i, j - 1);
      NameAt(w1, j - 1);
      ReplaceSnoc(env + w1[i..j - 1], w1[j - 1], names, w2);
      SliceSnoc(env, w1, i, j);
      SliceSnoc(Replace(env, names, w2), w2, i, j);
    }
  }

  /** A list whose configured names already read like the desired list is only refreshed in place. */
  lemma {:induction false} BodyRefreshes(env: seq<EnvVar>, wanted: seq<EnvVar>)
    requires NameSeq(Only(env, Names(wanted))) <= NameSeq(wanted)
    ensures Emitted(env, wanted) == |Only(env, Names(wanted))|
    ensures Body(env, wanted) == Replace(env, Names(wanted), wanted)
  {
    if env != [] {
      var names, before, item := Names(wanted), Front(env), Last(env);
      assert NameSeq(Only(before, names)) <= NameSeq(Only(env, names));
      BodyRefreshes(before, wanted);
      var n := Emitted(before, wanted);
      if item.name in names {
        assert NameSeq(Only(env, names))[n] == item.name == NameSeq(wanted)[n];
        assert wanted[n..n + 1] == [wanted[n]];
      } else {
        NotFound(wanted, n, item.name);
      }
    }
  }

  lemma {:induction false} ReplaceItself(env: seq<EnvVar>, names: set<string>, wanted: seq<EnvVar>)
    requires Only(env, names) <= wanted
    ensures Replace(env, names, wanted) == env
  {
    if env != [] {
      assert Only(Front(env), names) <= Only(env, names);
      ReplaceItself(Front(env), names, wanted);
      Rejoin(env);
    }
  }

  lemma {:induction false} NamesFromNameSeq(w1: seq<EnvVar>, w2: seq<EnvVar>)
    requires NameSeq(w1) == NameSeq(w2)
    ensures Names(w1) == Names(w2) && |w1| == |w2|
  {
    assert |w1| == |NameSeq(w1)| == |w2|;
    if w1 != [] {
      assert NameSeq(Front(w1)) == Front(NameSeq(w1)) && NameSeq(Front(w2)) == Front(NameSeq(w2));
      assert Last(w1).name == NameSeq(w1)[|w1| - 1] == Last(w2).name;
      NamesFromNameSeq(Front(w1), Front(w2));
    }
  }

  lemma {:induction false} BodyAfterRewording(current: seq<EnvVar>, w1: seq<EnvVar>, w2: seq<EnvVar>)
    requires NameSeq(w1) == NameSeq(w2)
    ensures Emitted(current, w1) == Emitted(current, w2)
    ensures |Only(Body(current, w1), Names(w1))| == Emitted(current, w1)
    ensures Body(current, w2) == Replace(Body(current, w1), Names(w1), w2)
  {
    NamesFromNameSeq(w1, w2);
    BodyInterleaves(current, w1);
    if current != [] {
      var before, item := Front(current), Last(current);
      BodyAfterRewording(before, w1, w2);
      BodyInterleaves(before, w1);
      var n := Emitted(before, w1);
      SameFirstFrom(w1, w2, n, item.name);
      if item.name in Names(w1) {
        ReplaceRun(Body(before, w1), w1, w2, Names(w1), n, Emitted(current, w1));
      } else {
        ReplaceSnoc(Body(before, w1), item, Names(w1), w2);
      }
    }
  }

  lemma {:induction false} SameFirstFrom(w1: seq<EnvVar>, w2: seq<EnvVar>, next: nat, name: string)
    requires NameSeq(w1) == NameSeq(w2) && next <= |w1| == |w2|
    ensures FirstFrom(w1, next, name) == FirstFrom(w2, next, name)
    decreases |w1| - next
  {
    if next < |w1| {
      assert w1[next].name == NameSeq(w1)[next] == w2[next].name;
      if w1[next].name != name {
        SameFirstFrom(w1, w2, next + 1, name);
      }
    }
  }

  lemma WholeSuffix(env: seq<EnvVar>, n: nat)
    requires n <= |env|
    ensures env[n..|env|] == env[n..]
  {
  }

  lemma MergeReworded(current: seq<EnvVar>, w1: seq<EnvVar>, w2: seq<EnvVar>)
    requires NameSeq(w1) == NameSeq(w2)
    ensures |Only(Merge(current, w1), Names(w1))| == |w2|
    ensures Merge(current, w2) == Replace(Merge(current, w1), Names(w1), w2)
  {
    var n := Emitted(current, w1);
    NamesFromNameSeq(w1, w2);
    BodyAfterRewording(current, w1, w2);
    ReplaceRun(Body(current, w1), w1, w2, Names(w1), n, |w1|);
    WholeSuffix(w1, n);
    WholeSuffix(w2, n);
  }

  /** The merge leaves a list alone exactly when its configured names already read as desired. */
  lemma MergeFixedPoint(current: seq<EnvVar>, wanted: seq<EnvVar>)
    ensures Merge(current, wanted) == current <==> Only(current, Names(wanted)) == wanted
  {
    MergeInterleaves(current, wanted);
    if Only(current, Names(wanted)) == wanted {
      BodyRefreshes(current, wanted);
      ReplaceItself(current, Names(wanted), wanted);
    }
  }

  lemma MergeIdempotent(current: seq<EnvVar>, wanted: seq<EnvVar>)
    ensures Merge(Merge(current, wanted), wanted) == Merge(current, wanted)
  {
    MergeInterleaves(current, wanted);
    MergeFixedPoint(Merge(current, wanted), wanted);
  }

  /** Rewording values without touching the sequence of names leaves no trace of the old wording. */
  lemma MergeAbsorbs(current: seq<EnvVar>, w1: seq<EnvVar>, w2: seq<EnvVar>)
    requires NameSeq(w1) == NameSeq(w2)
    ensures Merge(Merge(current, w1), w2) == Merge(current, w2)
  {
    NamesFromNameSeq(w1, w2);
    MergeInterleaves(current, w1);
    BodyRefreshes(Merge(current, w1), w2);
    MergeReworded(current, w1, w2);
  }

  /** Where no desired name is live yet, everything desired goes behind everything live. */
  lemma {:induction false} MergeAppendsFresh(current: seq<EnvVar>, wanted: seq<EnvVar>)
    requires Names(current) !! Names(wanted)
    ensures Merge(current, wanted) == current + wanted
  {
    FreshBody(current, wanted);
  }

  lemma {:induction false} FreshBody(current: seq<EnvVar>, wanted: seq<EnvVar>)
    requires Names(current) !! Names(wanted)
    ensures Body(current, wanted) == current && Emitted(current, wanted) == 0
  {
    if current != [] {
      var before, item := Front(current), Last(current);
      FreshBody(before, wanted);
      NotFound(wanted, 0, item.name);
      Rejoin(current);
    }
  }

  // ---------- whole runs ----------

  function MergeAll(start: seq<EnvVar>, configurations: seq<seq<EnvVar>>): seq<EnvVar> {
    if configurations == [] then start
    else Merge(MergeAll(start, Front(configurations)), Last(configurations))
  }

  /** The entries called x in the last configuration that declares x, or in the starting list. */
  function LastDeclared(start: seq<EnvVar>, configurations: seq<seq<EnvVar>>, x: string): seq<EnvVar> {
    if configurations == [] then Only(start, {x})
    else if x in Names(Last(configurations)) then Only(Last(configurations), {x})
    else LastDeclared(start, Front(configurations), x)
  }

  function AllNames(start: seq<EnvVar>, configurations: seq<seq<EnvVar>>): set<string> {
    if configurations == [] then Names(start)
    else AllNames(start, Front(configurations)) + Names(Last(configurations))
  }

  lemma MergeByName(current: seq<EnvVar>, wanted: seq<EnvVar>, x: string)
    ensures Only(Merge(current, wanted), {x}) ==
            if x in Names(wanted) then Only(wanted, {x}) else Only(current, {x})
    ensures Names(Merge(current, wanted)) == Names(current) + Names(wanted)
  {
    var m, names := Merge(current, wanted), Names(wanted);
    MergeInterleaves(current, wanted);
    OnlyThrough(m, names, x);
    OnlyThrough(current, names, x);
    OnlyNames(m, names);
    OnlyNames(current, names);
    assert Names(m) == Names(Only(m, names)) + Names(Without(m, names));
  }

  /** After any run of configurations from any live list, each name reads exactly as the
      last configuration that declares it left it, and no name was ever lost. */
  lemma {:induction false} RunHistory(start: seq<EnvVar>, configurations: seq<seq<EnvVar>>, x: string)
    ensures Only(MergeAll(start, configurations), {x}) == LastDeclared(start, configurations, x)
    ensures Names(MergeAll(start, configurations)) == AllNames(start, configurations)
  {
    if configurations != [] {
      RunHistory(start, Front(configurations), x);
      MergeByName(MergeAll(start, Front(configurations)), Last(configurations), x);
    }
  }
}
