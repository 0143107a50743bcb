/** What imports put into the tables and what they answer, field by field, over every run. */
module ImportContents {
  import opened Wrappers
  import opened ImportLedger
  import opened ImportProtocol
  import opened ImportLaws

  // ---------- what a commit adds ----------

  /** A row that PostgreSQL can store: a timestamp and three numbers. */
  predicate Readable(row: seq<string>, env: Environment) {
    |row| == 4 && env.isTimestamp(row[0]) && env.isF64(row[1]) && env.isF64(row[2]) && env.isF64(row[3])
  }

  /** The id generated for this row was neither in the table nor generated for an earlier one. */
  predicate Free(base: seq<Stored>, ids: seq<nat>, i: nat)
    requires i < |ids|
  {
    (forall j :: 0 <= j < |base| ==> base[j].id != ids[i]) && forall j :: 0 <= j < i ==> ids[j] != ids[i]
  }

  /** The reading is this row of the request, under this id. */
  predicate Carries(s: Stored, id: nat, request: Request, i: nat) {
    i < |request.rows| && |request.rows[i]| == 4 && s.id == id &&
    s.reading.station == request.station && s.reading.measuredAt == request.rows[i][0] &&
    s.reading.pm25 == request.rows[i][1] && s.reading.no2 == request.rows[i][2] && s.reading.ozone == request.rows[i][3]
  }

  ghost predicate Ascends(ordinals: seq<nat>) {
    forall i, j :: 0 <= i < j < |ordinals| ==> ordinals[i] < ordinals[j]
  }

  /** Of the first `k` rows, those with a free id were added in order and nothing else. */
  ghost predicate AddsExactly(
    base: seq<Stored>, request: Request, ids: seq<nat>, k: nat, ordinals: seq<nat>, added: seq<Stored>)
    requires k <= |ids|
  {
    Ascends(ordinals) && (forall i: nat :: i in ordinals <==> i < k && Free(base, ids, i)) &&
    |added| == |ordinals| &&
    forall j :: 0 <= j < |added| ==> ordinals[j] < k && Carries(added[j], ids[ordinals[j]], request, ordinals[j])
  }

  /** Every id generated so far is in the table or among the rows added, and these have no other ids. */
  lemma {:induction false} GeneratedIdsAreHeld(
    base: seq<Stored>, request: Request, k: nat, ids: seq<nat>, env: Environment, id: nat)
    requires k <= |request.rows| && k <= |ids| && InsertRows(base, request, k, ids, env).Ok?
    ensures HasId(base, id) || HasId(InsertRows(base, request, k, ids, env).value, id) <==>
            HasId(base, id) || id in ids[..k]
  {
    if k > 0 {
      GeneratedIdsAreHeld(base, request, k - 1, ids, env, id);
      var before := InsertRows(base, request, k - 1, ids, env).value;
      var after := InsertRows(base, request, k, ids, env).value;
      GeneratedIdsAreHeld(base, request, k - 1, ids, env, ids[k - 1]);
      assert ids[..k] == ids[..k - 1] + [ids[k - 1]];
      if after != before { HasIdConcat(before, [after[|before|]], id); }
    }
  }

  lemma FreeIsUnheld(base: seq<Stored>, request: Request, k: nat, ids: seq<nat>, env: Environment)
    requires k < |request.rows| && k < |ids| && InsertRows(base, request, k, ids, env).Ok?
    ensures Free(base, ids, k) <==>
            !HasId(base, ids[k]) && !HasId(InsertRows(base, request, k, ids, env).value, ids[k])
  {
    GeneratedIdsAreHeld(base, request, k, ids, env, ids[k]);
    assert ids[k] in ids[..k] <==> exists j :: 0 <= j < k && ids[j] == ids[k] by {
      forall j | 0 <= j < k ensures ids[..k][j] == ids[j] {
      }
    }
  }

  lemma InsertedRow(base: seq<Stored>, before: seq<Stored>, request: Request, k: nat, id: nat, env: Environment)
    requires k < |request.rows| && InsertRow(base, before, request, k, id, env).Ok?
    ensures var after := InsertRow(base, before, request, k, id, env).value;
            Readable(request.rows[k], env) && (k == 0 ==> request.failureStage != Some(DuringRows)) &&
            if HasId(base, id) || HasId(before, id) then after == before
            else request.station in env.stations && |after| == |before| + 1 && after[..|before|] == before &&
                 Carries(after[|before|], id, request, k)
  {
    hide HasId;
  }

  lemma NothingAdded(base: seq<Stored>, request: Request, ids: seq<nat>)
    ensures AddsExactly(base, request, ids, 0, [], [])
  {
  }

  lemma AddsOneMore(
    base: seq<Stored>, request: Request, ids: seq<nat>, k: nat, init: seq<nat>, before: seq<Stored>, after: seq<Stored>)
    requires k < |ids| && AddsExactly(base, request, ids, k, init, before)
    requires if Free(base, ids, k) then
               |after| == |before| + 1 && after[..|before|] == before && Carries(after[|before|], ids[k], request, k)
             else after == before
    ensures AddsExactly(base, request, ids, k + 1, if Free(base, ids, k) then init + [k] else init, after)
  {
    hide Carries, Free;
    if Free(base, ids, k) {
      var ordinals := init + [k];
      forall i | 0 <= i < |init| ensures ordinals[i] == init[i] < k {
        assert init[i] in init;
      }
      forall j | 0 <= j < |before| ensures after[j] == before[j] {
        assert after[..|before|][j] == before[j];
      }
    }
  }

  /** What the rows of a request amount to, whatever the failure point. */
  lemma {:induction false} RowsAdded(base: seq<Stored>, request: Request, k: nat, ids: seq<nat>, env: Environment)
    returns (ordinals: seq<nat>)
    requires k <= |request.rows| && k <= |ids| && InsertRows(base, request, k, ids, env).Ok?
    ensures AddsExactly(base, request, ids, k, ordinals, InsertRows(base, request, k, ids, env).value)
    ensures forall i :: 0 <= i < k ==> Readable(request.rows[i], env)
    ensures ordinals != [] ==> request.station in env.stations
    ensures k > 0 ==> request.failureStage != Some(DuringRows)
  {
    hide Carries, Free, Readable, AddsExactly, HasId, InsertRow;
    if k == 0 {
      ordinals := [];
      NothingAdded(base, request, ids);
    } else {
      var init := RowsAdded(base, request, k - 1, ids, env);
      var before := InsertRows(base, request, k - 1, ids, env).value;
      FreeIsUnheld(base, request, k - 1, ids, env);
      var after := InsertRows(base, request, k, ids, env).value;
      var free := Free(base, ids, k - 1);
      InsertedRow(base, before, request, k - 1, ids[k - 1], env);
      ordinals := if free then init + [k - 1] else init;
      AddsOneMore(base, request, ids, k - 1, init, before, after);
    }
  }

  // ---------- the tables of a run ----------

  /** The 64-bit signed integer congruent to the number. */
  predicate Wraps(b: int, n: nat) {
    -0x8000_0000_0000_0000 <= b < 0x8000_0000_0000_0000 && (b - n) % 0x1_0000_0000_0000_0000 == 0
  }

  /** The receipt repeats the request it was issued for. */
  predicate Records(r: Receipt, request: Request) {
    r.key == request.bundleDigest + ":" + request.station + ":" + request.targetRevision &&
    r.bundleDigest == request.bundleDigest && r.planDigest == request.planDigest &&
    r.targetRevision == request.targetRevision && r.localOwner == request.localOwner &&
    r.mapping == request.mapping && r.evidence == request.evidence &&
    r.rowCount == |request.rows| && Wraps(r.byteCount, request.byteCount)
  }

  lemma ReceiptRecords(request: Request, id: nat)
    ensures Records(MakeReceipt(request, id), request) && MakeReceipt(request, id).id == id
  {
  }

  /** The committed request could be committed: every row is readable and no failure was asked for. */
  predicate Committable(c: Committed, env: Environment) {
    |c.ids| == |c.request.rows| && (forall i :: 0 <= i < |c.request.rows| ==> Readable(c.request.rows[i], env)) &&
    (c.request.failureStage.None? || (c.request.failureStage == Some(DuringRows) && c.request.rows == []))
  }

  /** This stretch of the readings is what the commit added, to the readings before it. */
  ghost predicate ImportHeld(readings: seq<Stored>, c: Committed, from: nat, to: nat, ordinals: seq<nat>, env: Environment) {
    from <= to <= |readings| &&
    AddsExactly(readings[..from], c.request, c.ids, |c.ids|, ordinals, readings[from..to]) &&
    (ordinals != [] ==> c.request.station in env.stations)
  }

  /** The readings are the seed and then, commit by commit, what each added; receipt by receipt, the requests. */
  ghost predicate HoldsImports(
    seed: seq<Stored>, store: Store, commits: seq<Committed>, cuts: seq<nat>, ordinals: seq<seq<nat>>, env: Environment)
  {
    |store.receipts| == |commits| == |ordinals| && |cuts| == |commits| + 1 &&
    cuts[0] == |seed| && seed <= store.readings && cuts[|commits|] == |store.readings| &&
    forall k :: 0 <= k < |commits| ==>
      Committable(commits[k], env) && Records(store.receipts[k], commits[k].request) &&
      store.receipts[k].id == commits[k].receiptId &&
      ImportHeld(store.readings, commits[k], cuts[k], cuts[k + 1], ordinals[k], env)
  }

  lemma HeldInLonger(readings: seq<Stored>, more: seq<Stored>, c: Committed, from: nat, to: nat, ordinals: seq<nat>, env: Environment)
    requires ImportHeld(readings, c, from, to, ordinals, env)
    ensures ImportHeld(readings + more, c, from, to, ordinals, env)
  {
    assert (readings + more)[..from] == readings[..from] && (readings + more)[from..to] == readings[from..to];
  }

  /** What a commit found by running alone after the others looked like. */
  lemma CommitAdds(before: Store, c: Committed, env: Environment) returns (ordinals: seq<nat>)
    requires |c.ids| == |c.request.rows|
    requires Apply(before, c.request, c.ids, c.receiptId, env).1 == Ok((MakeReceipt(c.request, c.receiptId), false))
    ensures var after := Apply(before, c.request, c.ids, c.receiptId, env).0;
            before.readings <= after.readings && Committable(c, env) &&
            after.receipts == before.receipts + [MakeReceipt(c.request, c.receiptId)] &&
            ImportHeld(after.readings, c, |before.readings|, |after.readings|, ordinals, env)
  {
    hide Key, MakeReceipt, AddsExactly, Readable;
    ordinals := RowsAdded(before.readings, c.request, |c.request.rows|, c.ids, env);
    var pending := InsertRows(before.readings, c.request, |c.request.rows|, c.ids, env).value;
    var all := before.readings + pending;
    assert all[..|before.readings|] == before.readings && all[|before.readings|..|all|] == pending;
    assert Apply(before, c.request, c.ids, c.receiptId, env).0.readings == all;
    assert forall i :: 0 <= i < |c.request.rows| ==> Readable(c.request.rows[i], env);
    assert |c.request.rows| == 0 ==> c.request.rows == [];
    var stage := c.request.failureStage;
    assert stage != Some(BeforeRows) && stage != Some(BeforeCommit);
    assert stage.Some? ==> stage.value == BeforeRows || stage.value == DuringRows || stage.value == BeforeCommit;
  }

  lemma {:induction false} SerialContents(seed: seq<Stored>, commits: seq<Committed>, env: Environment)
    returns (cuts: seq<nat>, ordinals: seq<seq<nat>>)
    requires Serial(seed, commits, env).Some?
    ensures HoldsImports(seed, Serial(seed, commits, env).value, commits, cuts, ordinals, env)
    decreases |commits|
  {
    hide Apply, MakeReceipt, Records, ImportHeld, Committable;
    if commits == [] {
      cuts, ordinals := [|seed|], [];
    } else {
      var init, c := commits[..|commits| - 1], commits[|commits| - 1];
      var before, after := Serial(seed, init, env).value, Serial(seed, commits, env).value;
      var firstCuts, firstOrdinals := SerialContents(seed, init, env);
      var last := CommitAdds(before, c, env);
      ReceiptRecords(c.request, c.receiptId);
      cuts, ordinals := firstCuts + [|after.readings|], firstOrdinals + [last];
      var more := after.readings[|before.readings|..];
      assert after.readings == before.readings + more;
      forall k | 0 <= k < |commits|
        ensures Committable(commits[k], env) && Records(after.receipts[k], commits[k].request) &&
                after.receipts[k].id == commits[k].receiptId &&
                ImportHeld(after.readings, commits[k], cuts[k], cuts[k + 1], ordinals[k], env)
      {
        if k < |init| {
          assert commits[k] == init[k] && after.receipts[k] == before.receipts[k];
          HeldInLonger(before.readings, more, init[k], cuts[k], cuts[k + 1], ordinals[k], env);
        }
      }
    }
  }

  /**
   In every interleaving the readings are those of the seed and then, commit by commit, the rows of that
   commit whose id was free, each under its id with the request's station and its own four cells in order.
   The receipts repeat the committed requests.
   */
  lemma TablesHoldTheImports(seed: seq<Stored>, worlds: seq<World>, events: seq<Event>, env: Environment, n: nat)
    returns (cuts: seq<nat>, ordinals: seq<seq<nat>>)
    requires IsRun(seed, worlds, events, env) && n <= |events|
    ensures HoldsImports(seed, worlds[n].store, worlds[n].commits, cuts, ordinals, env)
  {
    Serializable(seed, worlds, events, env, n);
    cuts, ordinals := SerialContents(seed, worlds[n].commits, env);
  }
}
