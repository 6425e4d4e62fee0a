/** The look-ahead scanner that keeps a single spelling of the migration-check flag
    (pkg/install/localstorage/localstorage.go:520-545). */
module MigrateCheck {
  import opened Sequences
  import opened Wrappers

  const FLAG := "--migrate-check"
  const FLAG_ASSIGNED := "--migrate-check="

  predicate IsSwitch(value: string) {
    value == "true" || value == "false"
  }

  /** Either spelling of the flag itself. */
  predicate Managed(arg: string) {
    arg == FLAG || FLAG_ASSIGNED <= arg
  }

  /** The argument at i belongs to somebody else: it is no spelling of the flag and not
      the value written directly after a bare flag. */
  predicate Foreign(args: seq<string>, i: nat)
    requires i < |args|
  {
    && !Managed(args[i])
    && !(i > 0 && args[i - 1] == FLAG && IsSwitch(args[i]))
  }

  /** The foreign arguments among the first n, in order. */
  function ForeignArgs(args: seq<string>, n: nat): seq<string>
    requires n <= |args|
  {
    if n == 0 then []
    else if Foreign(args, n - 1) then ForeignArgs(args, n - 1) + [args[n - 1]]
    else ForeignArgs(args, n - 1)
  }

  /** What MIGRATE_CHECK asks for; unset means checking. */
  function CheckSetting(env: string): Result<string> {
    var check := if env == "" then "true" else env;
    if IsSwitch(check) then Ok(check) else Err("unsupported MIGRATE_CHECK: expected true or false")
  }

  function WithCheck(args: seq<string>, check: string): seq<string> {
    ForeignArgs(args, |args|) + [FLAG_ASSIGNED + check]
  }

  method SetMigrationCheck(args: seq<string>, env: string) returns (updated: Result<seq<string>>)
    ensures updated == match CheckSetting(env)
                       case Ok(check) => Ok(WithCheck(args, check))
                       case Err(message) => Err(message)
    ensures env in {"", "true"} ==> updated.Ok? && Ends(updated.value, "--migrate-check=true")
    ensures env == "false" ==> updated.Ok? && Ends(updated.value, "--migrate-check=false")
    ensures env !in {"", "true", "false"} ==> updated.Err?
  {
    var check := env;
    if check == "" {
      check := "true";
    }
    if check != "true" && check != "false" {
      return Err("unsupported MIGRATE_CHECK: expected true or false");
    }
    var kept := [];
    var i := 0;
    while i < |args|
      invariant 0 <= i <= |args|
      invariant kept == ForeignArgs(args, i)
      invariant 0 < i < |args| && args[i - 1] == FLAG ==> !IsSwitch(args[i])
    {
      var arg := args[i];
      if arg == FLAG {
        if i + 1 < |args| && (args[i + 1] == "true" || args[i + 1] == "false") {
          assert !Foreign(args, i + 1);
          i := i + 1;
          SwitchIsNoFlag(args[i]);
        }
        i := i + 1;
        continue;
      }
      if !(FLAG_ASSIGNED <= arg) {
        kept := kept + [arg];
      }
      i := i + 1;
    }
    FlagTexts();
    return Ok(kept + [FLAG_ASSIGNED + check]);
  }

  predicate Ends(args: seq<string>, arg: string) {
    args != [] && Last(args) == arg
  }

  lemma FlagTexts()
    ensures FLAG_ASSIGNED + "true" == "--migrate-check=true" && FLAG_ASSIGNED + "false" == "--migrate-check=false"
  {
  }

  /** Unset means checking, and besides only the two switches are supported. */
  lemma SettingExactly(args: seq<string>, env: string)
    ensures CheckSetting(env).Ok? <==> env in {"", "true", "false"}
    ensures CheckSetting(env).Ok? ==>
              Ends(WithCheck(args, CheckSetting(env).value),
                   if env == "false" then "--migrate-check=false" else "--migrate-check=true")
  {
    FlagTexts();
  }

  lemma SwitchIsNoFlag(value: string)
    requires IsSwitch(value)
    ensures value != FLAG
  {
    assert |value| <= 5;
  }

  // ---------- what the scanner promises ----------

  predicate NoneManaged(args: seq<string>) {
    forall i :: 0 <= i < |args| ==> !Managed(args[i])
  }

  lemma {:induction false} ForeignUnmanaged(args: seq<string>, n: nat)
    requires n <= |args|
    ensures NoneManaged(ForeignArgs(args, n))
  {
    if n > 0 {
      ForeignUnmanaged(args, n - 1);
    }
  }

  /** This argument is neither spelling of the flag, nor a switch directly after the bare one. */
  predicate SomebodyElses(args: seq<string>, i: nat)
    requires i < |args|
  {
    && args[i] != "--migrate-check" && !("--migrate-check=" <= args[i])
    && !(i > 0 && args[i - 1] == "--migrate-check" && args[i] in {"true", "false"})
  }

  /** kept is taken from the first n arguments, in order, at these indices. */
  ghost predicate TakenAt(kept: seq<string>, args: seq<string>, n: nat, indices: seq<nat>)
    requires n <= |args|
  {
    && |kept| == |indices|
    && (forall k :: 0 <= k < |kept| ==> indices[k] < n && kept[k] == args[indices[k]])
    && (forall k, l :: 0 <= k < l < |kept| ==> indices[k] < indices[l])
  }

  lemma TakenNext(kept: seq<string>, args: seq<string>, n: nat, indices: seq<nat>)
    requires n < |args| && TakenAt(kept, args, n, indices)
    ensures TakenAt(kept, args, n + 1, indices)
    ensures TakenAt(kept + [args[n]], args, n + 1, indices + [n])
  {
  }

  lemma ForeignExactly(args: seq<string>, i: nat)
    requires i < |args|
    ensures Foreign(args, i) <==> SomebodyElses(args, i)
  {
  }

  lemma {:induction false} KeepsForeign(args: seq<string>, n: nat) returns (indices: seq<nat>)
    requires n <= |args|
    ensures TakenAt(ForeignArgs(args, n), args, n, indices)
    ensures forall i :: 0 <= i < n ==> (i in indices <==> Foreign(args, i))
  {
    if n == 0 {
      indices := [];
    } else {
      indices := KeepsForeign(args, n - 1);
      TakenNext(ForeignArgs(args, n - 1), args, n - 1, indices);
      if Foreign(args, n - 1) {
        indices := indices + [n - 1];
      }
    }
  }

  /** The arguments kept are exactly somebody else's, in their order. */
  lemma KeepsExactly(args: seq<string>, check: string) returns (indices: seq<nat>)
    ensures WithCheck(args, check) != [] && TakenAt(Front(WithCheck(args, check)), args, |args|, indices)
    ensures forall i :: 0 <= i < |args| ==> (i in indices <==> SomebodyElses(args, i))
  {
    indices := KeepsForeign(args, |args|);
    FrontOfSnoc(ForeignArgs(args, |args|), FLAG_ASSIGNED + check);
    forall i | 0 <= i < |args|
      ensures i in indices <==> SomebodyElses(args, i)
    {
      ForeignExactly(args, i);
    }
  }

  /** Dropping the flag from arguments that have none drops nothing. */
  lemma {:induction false} ForeignKeepsAll(args: seq<string>, n: nat)
    requires n <= |args| && NoneManaged(args[..n])
    ensures ForeignArgs(args, n) == args[..n]
  {
    if n > 0 {
      assert forall i :: 0 <= i < n ==> args[..n][i] == args[i];
      ForeignKeepsAll(args, n - 1);
      if n > 1 {
        assert !Managed(args[..n][n - 2]);
      }
      assert !Managed(args[..n][n - 1]);
    }
  }

  lemma AssignedIsManaged(check: string)
    ensures Managed(FLAG_ASSIGNED + check)
  {
  }

  /** The flag is left in exactly one place, the last, and no switch value is left behind without it. */
  lemma ExactlyOneFlag(args: seq<string>, check: string)
    ensures var updated := WithCheck(args, check);
            && Last(updated) == FLAG_ASSIGNED + check
            && forall i :: 0 <= i < |updated| ==> (Managed(updated[i]) <==> i == |updated| - 1)
  {
    ForeignUnmanaged(args, |args|);
    AssignedIsManaged(check);
  }

  /** Setting the flag reads nothing from an earlier setting. */
  lemma LastCheckWins(args: seq<string>, first: string, second: string)
    ensures WithCheck(WithCheck(args, first), second) == WithCheck(args, second)
  {
    var kept := ForeignArgs(args, |args|);
    var once := WithCheck(args, first);
    ForeignUnmanaged(args, |args|);
    assert once[..|kept|] == kept;
    ForeignKeepsAll(once, |kept|);
    AssignedIsManaged(first);
    assert once[|kept|] == FLAG_ASSIGNED + first;
    assert ForeignArgs(once, |once|) == kept;
  }

  /** Arguments are left alone exactly when the flag is already there once, at the end, with this value. */
  lemma CheckFixedPoint(args: seq<string>, check: string)
    ensures WithCheck(args, check) == args <==>
            (args != [] && Last(args) == FLAG_ASSIGNED + check && NoneManaged(Front(args)))
  {
    if WithCheck(args, check) == args {
      ForeignUnmanaged(args, |args|);
      assert Front(args) == ForeignArgs(args, |args|);
    }
    if args != [] && Last(args) == FLAG_ASSIGNED + check && NoneManaged(Front(args)) {
      ForeignKeepsAll(args, |args| - 1);
      AssignedIsManaged(check);
      Rejoin(args);
    }
  }
}
