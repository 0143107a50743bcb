/** Applying versioned schema migrations sent by the hub (schema.rs). */
module SchemaSync {
  import opened Sequences
  import opened Text

  datatype Migration = Migration(version: int, name: string, sql: string)

  datatype SyncError = Rejected(version: int) | Failed(version: int)

  datatype Reply = Reply(success: bool, appliedVersion: int, errors: seq<SyncError>)

  // ---------- the statement guard ----------

  predicate DdlAllowed(sql: string) {
    var upper := Upper(TrimStart(sql));
    "CREATE " <= upper || "ALTER " <= upper
  }

  /** Behind white space the statement begins with CREATE or ALTER and a space, in any letter case. */
  ghost predicate Admissible(sql: string) {
    exists i: nat :: i <= |sql| && AllSpace(sql[..i]) && (StartsWith(sql[i..], "CREATE ") || StartsWith(sql[i..], "ALTER "))
  }

  lemma DdlAllowedExactly(sql: string)
    ensures DdlAllowed(sql) <==> Admissible(sql)
  {
    hide IsSpace, Upper;
    var trimmed := TrimStart(sql);
    UpperWord(trimmed, "CREATE ");
    UpperWord(trimmed, "ALTER ");
    var k := |sql| - |trimmed|;
    assert trimmed == sql[k..] && AllSpace(sql[..k]);
    forall i: nat | i <= |sql| && AllSpace(sql[..i]) && (StartsWith(sql[i..], "CREATE ") || StartsWith(sql[i..], "ALTER "))
      ensures i == k
    {
      FirstLetter(sql, i, k);
    }
  }

  lemma FirstLetter(sql: string, i: nat, k: nat)
    requires i <= |sql| && AllSpace(sql[..i]) && (StartsWith(sql[i..], "CREATE ") || StartsWith(sql[i..], "ALTER "))
    requires k <= |sql| && AllSpace(sql[..k]) && (k < |sql| ==> !IsSpace(sql[k]))
    ensures i == k
  {
    hide IsSpace;
    if StartsWith(sql[i..], "CREATE ") { StartsWithFirst(sql[i..], "CREATE "); } else { StartsWithFirst(sql[i..], "ALTER "); }
    var c := sql[i..][0];
    LettersAreNoSpace(c);
    SpacesIn(sql, i);
    SpacesIn(sql, k);
  }

  lemma SpacesIn(s: string, i: nat)
    requires i <= |s| && AllSpace(s[..i])
    ensures forall p :: 0 <= p < i ==> IsSpace(s[p])
  {
    assert forall p :: 0 <= p < i ==> s[..i][p] == s[p];
  }

  lemma StartsWithFirst(s: string, word: string)
    requires word != "" && StartsWith(s, word)
    ensures s != "" && SameLetter(s[0], word[0])
  {
    assert s[..|word|][0] == s[0];
  }

  lemma LettersAreNoSpace(c: char)
    requires SameLetter(c, 'C') || SameLetter(c, 'A')
    ensures !IsSpace(c)
  {
  }

  // ---------- one sync ----------

  /** Which migrations the host's hook applies without error. */
  type DdlHook = Migration -> bool

  datatype Verdict = Applies | Rejects | Fails

  /** What becomes of a pending migration: the guard comes before the hook. */
  function Judge(ddl: DdlHook): Migration -> Verdict {
    (m: Migration) => if !DdlAllowed(m.sql) then Rejects else if ddl(m) then Applies else Fails
  }

  datatype Outcome = Outcome(version: int, applied: seq<Migration>, errors: seq<SyncError>)

  /** The version after walking the list, what was applied on the way, and why the walk stopped early. */
  function Walk(version: int, migrations: seq<Migration>, verdict: Migration -> Verdict): Outcome
    decreases |migrations|
  {
    if migrations == [] then Outcome(version, [], [])
    else
      var m := migrations[0];
      if m.version <= version then Walk(version, migrations[1..], verdict)
      else
        match verdict(m)
        case Rejects => Outcome(version, [], [Rejected(m.version)])
        case Fails => Outcome(version, [], [Failed(m.version)])
        case Applies =>
          var rest := Walk(m.version, migrations[1..], verdict);
          rest.(applied := [m] + rest.applied)
  }

  /** The database behind the hook. */
  class Host {
    var applied: seq<Migration>

    constructor ()
      ensures applied == []
    {
      applied := [];
    }

    method ApplyDdl(m: Migration, ddl: DdlHook) returns (ok: bool)
      modifies this
      ensures ok == ddl(m)
      ensures applied == old(applied) + if ok then [m] else []
    {
      ok := ddl(m);
      if ok {
        applied := applied + [m];
      }
    }
  }

  class Cluster {
    const host: Host
    var version: int

    constructor (host: Host, version: int)
      ensures this.host == host && this.version == version
    {
      this.host := host;
      this.version := version;
    }

    method ApplySchemaSync(migrations: seq<Migration>, ddl: DdlHook) returns (reply: Reply)
      modifies this, host
      ensures var outcome := Walk(old(version), migrations, Judge(ddl));
              version == outcome.version && host.applied == old(host.applied) + outcome.applied &&
              reply == Reply(outcome.errors == [], outcome.version, outcome.errors)
    {
      hide DdlAllowed;
      var errors: seq<SyncError> := [];
      var appliedVersion := version;
      ghost var outcome := Walk(version, migrations, Judge(ddl));
      var i := 0;
      while i < |migrations|
        invariant 0 <= i <= |migrations| && version == old(version)
        invariant errors == []
        invariant Extended(host.applied, Walk(appliedVersion, migrations[i..], Judge(ddl))) == Extended(old(host.applied), outcome)
      {
        var m := migrations[i];
        if m.version > appliedVersion && Judge(ddl)(m) == Applies {
          WalkHead(appliedVersion, migrations[i..], Judge(ddl), host.applied);
        }
        assert migrations[i..][1..] == migrations[i + 1..];
        i := i + 1;
        if m.version <= appliedVersion {
          continue;
        }
        if !DdlAllowed(m.sql) {
          errors := errors + [Rejected(m.version)];
          break;
        }
        var ok := host.ApplyDdl(m, ddl);
        if ok {
          appliedVersion := m.version;
        } else {
          errors := errors + [Failed(m.version)];
          break;
        }
      }
      version := appliedVersion;
      return Reply(errors == [], appliedVersion, errors);
    }
  }

  /** The outcome with what was applied before it in front. */
  function Extended(applied: seq<Migration>, outcome: Outcome): Outcome {
    outcome.(applied := applied + outcome.applied)
  }

  lemma WalkHead(version: int, migrations: seq<Migration>, verdict: Migration -> Verdict, applied: seq<Migration>)
    requires migrations != [] && migrations[0].version > version && verdict(migrations[0]) == Applies
    ensures Extended(applied, Walk(version, migrations, verdict))
         == Extended(applied + [migrations[0]], Walk(migrations[0].version, migrations[1..], verdict))
  {
    var rest := Walk(migrations[0].version, migrations[1..], verdict).applied;
    assert applied + ([migrations[0]] + rest) == (applied + [migrations[0]]) + rest;
  }

  // ---------- one error-free sync of any list ----------

  /** The migration at `i` is above the starting version and above everything listed before it. */
  predicate IsMaximum(version: int, migrations: seq<Migration>, i: nat)
    requires i < |migrations|
  {
    migrations[i].version > version && forall j :: 0 <= j < i ==> migrations[j].version < migrations[i].version
  }

  /** The strict left-to-right maxima above the version, among the first `n`. */
  function Maxima(version: int, migrations: seq<Migration>, n: nat): seq<Migration>
    requires n <= |migrations|
  {
    if n == 0 then []
    else Maxima(version, migrations, n - 1) + if IsMaximum(version, migrations, n - 1) then [migrations[n - 1]] else []
  }

  function Highest(version: int, migrations: seq<Migration>): (h: int)
    ensures h >= version && forall i :: 0 <= i < |migrations| ==> migrations[i].version <= h
    ensures h == version || exists i :: 0 <= i < |migrations| && migrations[i].version == h
  {
    if migrations == [] then version
    else
      var h := Highest(version, migrations[..|migrations| - 1]);
      if migrations[|migrations| - 1].version > h then migrations[|migrations| - 1].version else h
  }

  /** Walking a list is walking its front part and then, unless that stopped, the rest. */
  lemma {:induction false} WalkConcat(version: int, a: seq<Migration>, b: seq<Migration>, verdict: Migration -> Verdict)
    ensures var first := Walk(version, a, verdict);
            Walk(version, a + b, verdict) ==
            if first.errors != [] then first
            else
              var second := Walk(first.version, b, verdict);
              Outcome(second.version, first.applied + second.applied, second.errors)
    decreases |a|
  {
    if a == [] {
      assert a + b == b;
    } else {
      assert (a + b)[1..] == a[1..] + b;
      WalkConcat(version, a[1..], b, verdict);
      WalkConcat(a[0].version, a[1..], b, verdict);
    }
  }

  lemma {:induction false} ErrorFreePrefix(version: int, migrations: seq<Migration>, n: nat, verdict: Migration -> Verdict)
    requires n <= |migrations| && Walk(version, migrations, verdict).errors == []
    ensures var outcome := Walk(version, migrations[..n], verdict);
            outcome.errors == [] && outcome.version == Highest(version, migrations[..n]) &&
            outcome.applied == Maxima(version, migrations, n)
  {
    hide Walk, Highest, IsMaximum;
    assert migrations == migrations[..n] + migrations[n..];
    WalkConcat(version, migrations[..n], migrations[n..], verdict);
    if n > 0 {
      ErrorFreePrefix(version, migrations, n - 1, verdict);
      var m := migrations[n - 1];
      assert migrations[..n] == migrations[..n - 1] + [m];
      WalkConcat(version, migrations[..n - 1], [m], verdict);
      WalkOne(Highest(version, migrations[..n - 1]), m, verdict);
      HighestOfOneMore(version, migrations[..n - 1], m);
      MaximumIsAboveHighest(version, migrations, n - 1);
    } else {
      assert migrations[..0] == [];
      WalkNone(version, verdict);
    }
  }

  lemma WalkNone(version: int, verdict: Migration -> Verdict)
    ensures Walk(version, [], verdict) == Outcome(version, [], []) && Highest(version, []) == version
  {
  }

  lemma WalkOne(version: int, m: Migration, verdict: Migration -> Verdict)
    ensures Walk(version, [m], verdict) ==
            if m.version <= version then Outcome(version, [], [])
            else
              match verdict(m)
              case Applies => Outcome(m.version, [m], [])
              case Rejects => Outcome(version, [], [Rejected(m.version)])
              case Fails => Outcome(version, [], [Failed(m.version)])
  {
    assert [m][1..] == [];
  }

  lemma HighestOfOneMore(version: int, front: seq<Migration>, m: Migration)
    ensures var h := Highest(version, front); Highest(version, front + [m]) == if m.version > h then m.version else h
  {
    assert (front + [m])[..|front|] == front;
  }

  lemma MaximumIsAboveHighest(version: int, migrations: seq<Migration>, i: nat)
    requires i < |migrations|
    ensures IsMaximum(version, migrations, i) <==> migrations[i].version > Highest(version, migrations[..i])
  {
    var front := migrations[..i];
    if migrations[i].version > Highest(version, front) {
      forall j | 0 <= j < i ensures migrations[j].version < migrations[i].version {
        assert front[j] == migrations[j];
      }
    }
  }

  /**
   One sync without errors applies exactly the strict left-to-right maxima above the stored version,
   in order, and ends on the highest version.
   */
  lemma ErrorFreeSync(version: int, migrations: seq<Migration>, verdict: Migration -> Verdict)
    requires Walk(version, migrations, verdict).errors == []
    ensures Walk(version, migrations, verdict).applied == Maxima(version, migrations, |migrations|)
    ensures Walk(version, migrations, verdict).version == Highest(version, migrations)
  {
    ErrorFreePrefix(version, migrations, |migrations|, verdict);
    assert migrations[..|migrations|] == migrations;
  }

  lemma {:induction false} NothingAbove(version: int, migrations: seq<Migration>, verdict: Migration -> Verdict)
    requires forall i :: 0 <= i < |migrations| ==> migrations[i].version <= version
    ensures Walk(version, migrations, verdict) == Outcome(version, [], [])
  {
    if migrations != [] {
      NothingAbove(version, migrations[1..], verdict);
    }
  }

  /** Repeating a sync that succeeded applies nothing, whatever the hook would do now. */
  lemma RepeatedSyncIsQuiet(version: int, migrations: seq<Migration>, verdict: Migration -> Verdict, later: Migration -> Verdict)
    requires Walk(version, migrations, verdict).errors == []
    ensures var reached := Walk(version, migrations, verdict).version;
            Walk(reached, migrations, later) == Outcome(reached, [], [])
  {
    ErrorFreeSync(version, migrations, verdict);
    NothingAbove(Highest(version, migrations), migrations, later);
  }

  // ---------- which statements reach the hook ----------

  /**
   Of any list the walk takes the strict maxima above the version in order, up to the first that is not
   admissible or that the hook fails; only admissible ones reach the hook, and the error says which it was.
   */
  lemma {:induction false} WalkStopsExactly(version: int, migrations: seq<Migration>, ddl: DdlHook) returns (n: nat)
    ensures n <= |migrations|
    ensures var outcome := Walk(version, migrations, Judge(ddl));
            outcome.applied == Maxima(version, migrations, n) &&
            (forall m :: m in outcome.applied ==> Admissible(m.sql) && ddl(m)) &&
            outcome.version == Highest(version, migrations[..n]) &&
            if n == |migrations| then outcome.errors == []
            else
              var m := migrations[n];
              IsMaximum(version, migrations, n) && !(Admissible(m.sql) && ddl(m)) &&
              outcome.errors == [if Admissible(m.sql) then Failed(m.version) else Rejected(m.version)]
    decreases |migrations|
  {
    hide Walk, Highest, IsMaximum, Admissible, DdlAllowed, Maxima;
    var verdict := Judge(ddl);
    n := 0;
    if |migrations| == 0 {
      WalkNone(version, verdict);
      NoMaxima(version, migrations);
      assert migrations == [] && migrations[..0] == [];
    } else {
      var init, m := migrations[..|migrations| - 1], migrations[|migrations| - 1];
      n := WalkStopsExactly(version, init, ddl);
      assert migrations == init + [m];
      WalkConcat(version, init, [m], verdict);
      MaximaOfFront(version, init, m, n);
      assert migrations[..n] == init[..n];
      if n == |init| {
        assert init[..n] == init;
        WalkOne(Highest(version, init), m, verdict);
        DdlAllowedExactly(m.sql);
        MaximumIsAboveHighest(version, migrations, n);
        HighestOfOneMore(version, init, m);
        MaximaOfOneMore(version, migrations);
        if m.version <= Highest(version, init) || verdict(m) == Applies {
          n := |migrations|;
          assert migrations[..n] == migrations;
        }
      }
    }
  }

  lemma NoMaxima(version: int, migrations: seq<Migration>)
    ensures Maxima(version, migrations, 0) == []
  {
  }

  lemma {:induction false} MaximaOfFront(version: int, init: seq<Migration>, m: Migration, n: nat)
    requires n <= |init|
    ensures Maxima(version, init + [m], n) == Maxima(version, init, n)
    ensures n < |init| ==> (init + [m])[n] == init[n] && (IsMaximum(version, init + [m], n) <==> IsMaximum(version, init, n))
  {
    var all := init + [m];
    assert forall i :: 0 <= i < |init| ==> all[i] == init[i];
    if n > 0 { MaximaOfFront(version, init, m, n - 1); }
  }

  lemma MaximaOfOneMore(version: int, migrations: seq<Migration>)
    requires |migrations| > 0
    ensures var k := |migrations| - 1;
            Maxima(version, migrations, |migrations|) ==
            Maxima(version, migrations, k) + if IsMaximum(version, migrations, k) then [migrations[k]] else []
  {
    hide IsMaximum;
  }

  /** Over any run of syncs, whatever lists are sent, only admissible statements are ever applied. */
  lemma {:induction false} OnlyAdmissibleIsApplied(version: int, lists: seq<seq<Migration>>, hooks: seq<DdlHook>)
    requires |lists| == |hooks|
    ensures forall m :: m in Synced(version, lists, hooks).1 ==> Admissible(m.sql)
    decreases |lists|
  {
    hide Walk, Admissible;
    if |lists| > 0 {
      var k := |lists| - 1;
      OnlyAdmissibleIsApplied(version, lists[..k], hooks[..k]);
      var before := Synced(version, lists[..k], hooks[..k]).0;
      var n := WalkStopsExactly(before, lists[k], hooks[k]);
    }
  }

  /** The version and everything applied after these syncs. */
  function Synced(version: int, lists: seq<seq<Migration>>, hooks: seq<DdlHook>): (int, seq<Migration>)
    requires |lists| == |hooks|
    decreases |lists|
  {
    if |lists| == 0 then (version, [])
    else
      var k := |lists| - 1;
      var (before, applied) := Synced(version, lists[..k], hooks[..k]);
      var outcome := Walk(before, lists[k], Judge(hooks[k]));
      (outcome.version, applied + outcome.applied)
  }

  // ---------- a fixed list resent over any run ----------

  predicate Increasing(migrations: seq<Migration>) {
    forall i, j :: 0 <= i < j < |migrations| ==> migrations[i].version < migrations[j].version
  }

  /** The migrations with a version above `low` and up to `high`, in order. */
  function Between(migrations: seq<Migration>, low: int, high: int): seq<Migration> {
    if migrations == [] then []
    else (if low < migrations[0].version <= high then [migrations[0]] else []) + Between(migrations[1..], low, high)
  }

  /** The version and everything applied after resending the list once per hook. */
  function Resent(version: int, migrations: seq<Migration>, hooks: seq<Migration -> Verdict>): (int, seq<Migration>) {
    if |hooks| == 0 then (version, [])
    else
      var (before, applied) := Resent(version, migrations, hooks[..|hooks| - 1]);
      var outcome := Walk(before, migrations, hooks[|hooks| - 1]);
      (outcome.version, applied + outcome.applied)
  }

  lemma {:induction false} BetweenNone(migrations: seq<Migration>, low: int, high: int)
    requires forall i :: 0 <= i < |migrations| ==> migrations[i].version <= low || migrations[i].version > high
    ensures Between(migrations, low, high) == []
  {
    if migrations != [] {
      BetweenNone(migrations[1..], low, high);
    }
  }

  lemma BetweenHead(migrations: seq<Migration>, low: int, high: int)
    requires |migrations| > 0
    ensures Between(migrations, low, high) ==
            if low < migrations[0].version <= high then [migrations[0]] + Between(migrations[1..], low, high)
            else Between(migrations[1..], low, high)
  {
  }

  lemma {:induction false} BetweenJoins(migrations: seq<Migration>, low: int, middle: int, high: int)
    requires Increasing(migrations) && low <= middle <= high
    ensures Between(migrations, low, middle) + Between(migrations, middle, high) == Between(migrations, low, high)
  {
    hide Between;
    if |migrations| == 0 {
      BetweenNone(migrations, low, middle);
      BetweenNone(migrations, middle, high);
      BetweenNone(migrations, low, high);
    } else {
      var m, rest := migrations[0], migrations[1..];
      BetweenHead(migrations, low, middle);
      BetweenHead(migrations, middle, high);
      BetweenHead(migrations, low, high);
      BetweenJoins(rest, low, middle, high);
      Regroup([m], Between(rest, low, middle), Between(rest, middle, high));
      if m.version > middle {
        BetweenNone(rest, low, middle);
        assert [] + Between(migrations, middle, high) == Between(migrations, middle, high);
      }
    }
  }

  /** A sync of an increasing list applies exactly the migrations between the versions before and after. */
  lemma {:induction false} WalkAppliesBetween(version: int, migrations: seq<Migration>, verdict: Migration -> Verdict)
    requires Increasing(migrations)
    decreases |migrations|
    ensures var outcome := Walk(version, migrations, verdict);
            outcome.version >= version && outcome.applied == Between(migrations, version, outcome.version)
  {
    if migrations == [] {
    } else if migrations[0].version <= version {
      WalkAppliesBetween(version, migrations[1..], verdict);
    } else if verdict(migrations[0]) != Applies {
      BetweenNone(migrations, version, version);
    } else {
      var m := migrations[0];
      WalkAppliesBetween(m.version, migrations[1..], verdict);
      var reached := Walk(m.version, migrations[1..], verdict).version;
      BetweenNone(migrations[1..], version, m.version);
      BetweenJoins(migrations[1..], version, m.version, reached);
    }
  }

  /**
   Resending a fixed increasing list over any run of failing and succeeding hooks applies exactly the
   migrations above the starting version up to the current one, each once and in order.
   */
  lemma {:induction false} ResendingAppliesOnceInOrder(version: int, migrations: seq<Migration>, hooks: seq<Migration -> Verdict>)
    requires Increasing(migrations)
    ensures var (current, applied) := Resent(version, migrations, hooks);
            current >= version && applied == Between(migrations, version, current)
    decreases |hooks|
  {
    if |hooks| == 0 {
      BetweenNone(migrations, version, version);
    } else {
      var (before, applied) := Resent(version, migrations, hooks[..|hooks| - 1]);
      ResendingAppliesOnceInOrder(version, migrations, hooks[..|hooks| - 1]);
      WalkAppliesBetween(before, migrations, hooks[|hooks| - 1]);
      BetweenJoins(migrations, version, before, Walk(before, migrations, hooks[|hooks| - 1]).version);
    }
  }
}
