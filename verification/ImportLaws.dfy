/** What every interleaving of import calls guarantees: serial order, one receipt per import, nothing lost or repeated. */
module ImportLaws {
  import opened Wrappers
  import opened ImportLedger
  import opened ImportProtocol

  /** Every interleaving leaves the store its committed imports make one after the other, in commit order. */
  lemma Serializable(seed: seq<Stored>, worlds: seq<World>, events: seq<Event>, env: Environment, n: nat)
    requires IsRun(seed, worlds, events, env) && n <= |events|
    ensures Serial(seed, worlds[n].commits, env) == Some(worlds[n].store)
  {
    RunKeepsInv(seed, worlds, events, env, n);
  }

  /** At most one receipt per bundle, station and revision, ever. */
  lemma OneReceiptPerImport(seed: seq<Stored>, worlds: seq<World>, events: seq<Event>, env: Environment, n: nat, i: nat, j: nat)
    requires IsRun(seed, worlds, events, env) && n <= |events|
    requires i < |worlds[n].commits| && j < |worlds[n].commits|
    requires var a, b := worlds[n].commits[i].request, worlds[n].commits[j].request;
             a.bundleDigest == b.bundleDigest && a.station == b.station && a.targetRevision == b.targetRevision
    ensures i == j
    ensures |worlds[n].store.receipts| == |worlds[n].commits|
    ensures worlds[n].store.receipts[i] == CommittedReceipt(worlds[n].commits[i])
  {
    RunKeepsInv(seed, worlds, events, env, n);
    var w := worlds[n];
    assert w.store.receipts[i].key == w.store.receipts[j].key;
  }

  /** Only a commit changes the tables: failed, dropped and replayed calls leave no trace. */
  lemma OnlyCommitsWrite(w: World, e: Event, env: Environment)
    requires Enabled(w, e)
    ensures Step(w, e, env).store != w.store ==> e.Commit?
    ensures w.store.receipts <= Step(w, e, env).store.receipts && w.store.readings <= Step(w, e, env).store.readings
  {
  }

  lemma KeyIsUnique(w: World, r: Receipt, s: Receipt)
    requires ReceiptsOk(w) && r in w.store.receipts && s in w.store.receipts && r.key == s.key
    ensures r == s
  {
    hide Key;
    var i :| 0 <= i < |w.store.receipts| && w.store.receipts[i] == r;
    var j :| 0 <= j < |w.store.receipts| && w.store.receipts[j] == s;
    assert i == j;
  }

  /** All accepted calls for one key carry the same stored receipt, and at most one of them made it. */
  lemma AcceptedCallsAgree(seed: seq<Stored>, worlds: seq<World>, events: seq<Event>, env: Environment, n: nat, t: nat, u: nat)
    requires IsRun(seed, worlds, events, env) && n <= |events|
    requires t in worlds[n].txs && u in worlds[n].txs
    requires var w := worlds[n];
             w.txs[t].phase.Done? && w.txs[t].phase.reply.Ok? && w.txs[u].phase.Done? && w.txs[u].phase.reply.Ok? &&
             Key(w.txs[t].request) == Key(w.txs[u].request)
    ensures var (r, replayedT) := worlds[n].txs[t].phase.reply.value;
            var (s, replayedU) := worlds[n].txs[u].phase.reply.value;
            r == s && r in worlds[n].store.receipts && Matches(r, worlds[n].txs[t].request) &&
            (t != u ==> replayedT || replayedU)
  {
    hide Serial, TxOk, PairOk, Key, Matches;
    RunKeepsInv(seed, worlds, events, env, n);
    var w := worlds[n];
    assert ReplyOk(w, t) && ReplyOk(w, u);
    var (r, replayedT) := w.txs[t].phase.reply.value;
    var (s, replayedU) := w.txs[u].phase.reply.value;
    KeyIsUnique(w, r, s);
    if !replayedT && !replayedU {
      var k :| 0 <= k < |w.commits| && w.commits[k].tx == t && r == CommittedReceipt(w.commits[k]);
      var l :| 0 <= l < |w.commits| && w.commits[l].tx == u && s == CommittedReceipt(w.commits[l]);
      assert w.store.receipts[k] == w.store.receipts[l];
      assert k == l;
    }
  }

  // ---------- conservation ----------

  function RowTotal(receipts: seq<Receipt>): nat {
    if receipts == [] then 0 else RowTotal(receipts[..|receipts| - 1]) + receipts[|receipts| - 1].rowCount
  }

  /** Of the first `k` rows, those whose generated id was taken already, which `ON CONFLICT` drops. */
  function Skipped(base: seq<Stored>, request: Request, k: nat, ids: seq<nat>, env: Environment): nat
    requires k <= |request.rows| && k <= |ids|
  {
    if k == 0 then 0
    else
      Skipped(base, request, k - 1, ids, env) +
      match InsertRows(base, request, k - 1, ids, env)
      case Err(_) => 0
      case Ok(pending) => if HasId(base, ids[k - 1]) || HasId(pending, ids[k - 1]) then 1 else 0
  }

  function SkippedTotal(seed: seq<Stored>, commits: seq<Committed>, env: Environment): nat {
    if commits == [] then 0
    else
      var c := commits[|commits| - 1];
      SkippedTotal(seed, commits[..|commits| - 1], env) +
      match Serial(seed, commits[..|commits| - 1], env)
      case None => 0
      case Some(before) =>
        if |c.ids| != |c.request.rows| then 0 else Skipped(before.readings, c.request, |c.ids|, c.ids, env)
  }

  lemma {:induction false} RowsAreInsertedOrSkipped(base: seq<Stored>, request: Request, k: nat, ids: seq<nat>, env: Environment)
    requires k <= |request.rows| && k <= |ids| && InsertRows(base, request, k, ids, env).Ok?
    ensures |InsertRows(base, request, k, ids, env).value| + Skipped(base, request, k, ids, env) == k
  {
    if k > 0 {
      RowsAreInsertedOrSkipped(base, request, k - 1, ids, env);
    }
  }

  lemma {:induction false} SerialConserves(seed: seq<Stored>, commits: seq<Committed>, env: Environment)
    requires Serial(seed, commits, env).Some?
    ensures var store := Serial(seed, commits, env).value;
            |store.readings| + SkippedTotal(seed, commits, env) == |seed| + RowTotal(store.receipts)
    decreases |commits|
  {
    if commits != [] {
      var c := commits[|commits| - 1];
      var before := Serial(seed, commits[..|commits| - 1], env).value;
      var after := Serial(seed, commits, env).value;
      SerialConserves(seed, commits[..|commits| - 1], env);
      RowsAreInsertedOrSkipped(before.readings, c.request, |c.ids|, c.ids, env);
      assert after.receipts[..|after.receipts| - 1] == before.receipts;
    }
  }

  /**
   In every interleaving the imported rows in the table, with those dropped because a generated id
   was taken, total the row counts of the receipts.
   */
  lemma ImportedRowsTotal(seed: seq<Stored>, worlds: seq<World>, events: seq<Event>, env: Environment, n: nat)
    requires IsRun(seed, worlds, events, env) && n <= |events|
    ensures |worlds[n].store.readings| - |seed| + SkippedTotal(seed, worlds[n].commits, env)
         == RowTotal(worlds[n].store.receipts)
  {
    RunKeepsInv(seed, worlds, events, env, n);
    SerialConserves(seed, worlds[n].commits, env);
  }

  // ---------- when no generated id repeats ----------

  predicate Issued(commits: seq<Committed>, id: nat) {
    exists i :: 0 <= i < |commits| && id in commits[i].ids
  }

  /** No generated id was in the table to begin with or was generated before. */
  ghost predicate FreshIds(seed: seq<Stored>, commits: seq<Committed>)
    decreases |commits|
  {
    commits != [] ==>
      var init, c := commits[..|commits| - 1], commits[|commits| - 1];
      FreshIds(seed, init) &&
      (forall i :: 0 <= i < |c.ids| ==> !HasId(seed, c.ids[i]) && !Issued(init, c.ids[i])) &&
      forall i, j :: 0 <= i < j < |c.ids| ==> c.ids[i] != c.ids[j]
  }

  lemma {:induction false} PendingIdsAreGenerated(base: seq<Stored>, request: Request, k: nat, ids: seq<nat>, env: Environment)
    requires k <= |request.rows| && k <= |ids| && InsertRows(base, request, k, ids, env).Ok?
    ensures var pending := InsertRows(base, request, k, ids, env).value;
            forall i :: 0 <= i < |pending| ==> pending[i].id in ids[..k]
  {
    if k > 0 {
      PendingIdsAreGenerated(base, request, k - 1, ids, env);
      assert ids[..k] == ids[..k - 1] + [ids[k - 1]];
    }
  }

  lemma {:induction false} NothingSkipped(base: seq<Stored>, request: Request, k: nat, ids: seq<nat>, env: Environment)
    requires k <= |request.rows| && k <= |ids| && InsertRows(base, request, k, ids, env).Ok?
    requires forall i :: 0 <= i < |ids| ==> !HasId(base, ids[i])
    requires forall i, j :: 0 <= i < j < |ids| ==> ids[i] != ids[j]
    ensures Skipped(base, request, k, ids, env) == 0
  {
    if k > 0 {
      NothingSkipped(base, request, k - 1, ids, env);
      PendingIdsAreGenerated(base, request, k - 1, ids, env);
      var pending := InsertRows(base, request, k - 1, ids, env).value;
      assert forall i :: 0 <= i < |pending| ==> pending[i].id != ids[k - 1];
    }
  }

  lemma {:induction false} StoredIdsAreKnown(seed: seq<Stored>, commits: seq<Committed>, env: Environment, id: nat)
    requires Serial(seed, commits, env).Some? && HasId(Serial(seed, commits, env).value.readings, id)
    ensures HasId(seed, id) || Issued(commits, id)
    decreases |commits|
  {
    if commits != [] {
      var init, c := commits[..|commits| - 1], commits[|commits| - 1];
      var before := Serial(seed, init, env).value;
      var pending := InsertRows(before.readings, c.request, |c.ids|, c.ids, env).value;
      HasIdConcat(before.readings, pending, id);
      if HasId(before.readings, id) {
        StoredIdsAreKnown(seed, init, env, id);
        if Issued(init, id) {
          var i :| 0 <= i < |init| && id in init[i].ids;
          assert commits[i] == init[i];
        }
      } else {
        PendingIdsAreGenerated(before.readings, c.request, |c.ids|, c.ids, env);
        assert c.ids[..|c.ids|] == c.ids && id in commits[|commits| - 1].ids;
      }
    }
  }

  lemma {:induction false} FreshIdsSkipNothing(seed: seq<Stored>, commits: seq<Committed>, env: Environment)
    requires Serial(seed, commits, env).Some? && FreshIds(seed, commits)
    ensures SkippedTotal(seed, commits, env) == 0
    decreases |commits|
  {
    if commits != [] {
      var init, c := commits[..|commits| - 1], commits[|commits| - 1];
      var before := Serial(seed, init, env).value;
      FreshIdsSkipNothing(seed, init, env);
      forall i | 0 <= i < |c.ids| ensures !HasId(before.readings, c.ids[i]) {
        if HasId(before.readings, c.ids[i]) { StoredIdsAreKnown(seed, init, env, c.ids[i]); }
      }
      NothingSkipped(before.readings, c.request, |c.ids|, c.ids, env);
    }
  }

  /** A row that was not skipped had a fresh id, and its reading is held under that id. */
  lemma {:induction false} UnskippedIdsAreFresh(base: seq<Stored>, request: Request, k: nat, ids: seq<nat>, env: Environment)
    requires k <= |request.rows| && k <= |ids| && InsertRows(base, request, k, ids, env).Ok?
    requires Skipped(base, request, k, ids, env) == 0
    ensures forall i :: 0 <= i < k ==> !HasId(base, ids[i]) && HasId(InsertRows(base, request, k, ids, env).value, ids[i])
    ensures forall i, j :: 0 <= i < j < k ==> ids[i] != ids[j]
  {
    if k > 0 {
      UnskippedIdsAreFresh(base, request, k - 1, ids, env);
      var before := InsertRows(base, request, k - 1, ids, env).value;
      var after := InsertRows(base, request, k, ids, env).value;
      assert after == before + [after[|before|]] && after[|before|].id == ids[k - 1];
      forall i | 0 <= i < k ensures HasId(after, ids[i]) {
        if i < k - 1 { HasIdConcat(before, [after[|before|]], ids[i]); }
      }
    }
  }

  /** While nothing is skipped, every id known so far is in the table. */
  lemma {:induction false} KnownIdsAreStored(seed: seq<Stored>, commits: seq<Committed>, env: Environment, id: nat)
    requires Serial(seed, commits, env).Some? && SkippedTotal(seed, commits, env) == 0
    requires HasId(seed, id) || Issued(commits, id)
    ensures HasId(Serial(seed, commits, env).value.readings, id)
    decreases |commits|
  {
    hide Key, FindReceipt, Matches, InsertRows, Skipped, HasReceiptId, MakeReceipt;
    if commits != [] {
      var init, c := commits[..|commits| - 1], commits[|commits| - 1];
      var before := Serial(seed, init, env).value;
      var pending := InsertRows(before.readings, c.request, |c.ids|, c.ids, env).value;
      HasIdConcat(before.readings, pending, id);
      UnskippedIdsAreFresh(before.readings, c.request, |c.ids|, c.ids, env);
      if HasId(seed, id) || Issued(init, id) {
        KnownIdsAreStored(seed, init, env, id);
      } else {
        var i :| 0 <= i < |commits| && id in commits[i].ids;
        assert i < |init| ==> commits[i] == init[i];
      }
    }
  }

  lemma {:induction false} SkippingNothingMeansFresh(seed: seq<Stored>, commits: seq<Committed>, env: Environment)
    requires Serial(seed, commits, env).Some? && SkippedTotal(seed, commits, env) == 0
    ensures FreshIds(seed, commits)
    decreases |commits|
  {
    if commits != [] {
      var init, c := commits[..|commits| - 1], commits[|commits| - 1];
      var before := Serial(seed, init, env).value;
      SkippingNothingMeansFresh(seed, init, env);
      UnskippedIdsAreFresh(before.readings, c.request, |c.ids|, c.ids, env);
      forall i | 0 <= i < |c.ids| ensures !HasId(seed, c.ids[i]) && !Issued(init, c.ids[i]) {
        if HasId(seed, c.ids[i]) || Issued(init, c.ids[i]) { KnownIdsAreStored(seed, init, env, c.ids[i]); }
      }
    }
  }

  /** The imported rows total exactly the receipts' row counts if and only if no generated id repeats. */
  lemma ImportedRowsMatchReceipts(seed: seq<Stored>, worlds: seq<World>, events: seq<Event>, env: Environment, n: nat)
    requires IsRun(seed, worlds, events, env) && n <= |events|
    ensures |worlds[n].store.readings| - |seed| == RowTotal(worlds[n].store.receipts) <==> FreshIds(seed, worlds[n].commits)
  {
    RunKeepsInv(seed, worlds, events, env, n);
    ImportedRowsTotal(seed, worlds, events, env, n);
    if FreshIds(seed, worlds[n].commits) { FreshIdsSkipNothing(seed, worlds[n].commits, env); }
    if SkippedTotal(seed, worlds[n].commits, env) == 0 { SkippingNothingMeansFresh(seed, worlds[n].commits, env); }
  }

  /** A repeated id loses a row: its receipt counts it, and the table is as it was. */
  lemma RepeatedIdLosesRow(seed: seq<Stored>, request: Request, env: Environment)
    returns (worlds: seq<World>, events: seq<Event>)
    requires |seed| == 1 && |request.rows| == 1 && request.failureStage.None? && ValidRow(request.rows[0], env)
    ensures IsRun(seed, worlds, events, env)
    ensures var last := worlds[|events|].store;
            last.readings == seed && |last.receipts| == 1 &&
            last.receipts[0] == MakeReceipt(request, 0) && RowTotal(last.receipts) == 1
  {
    hide Key, ValidRow, Matches;
    var id := seed[0].id;
    events := [Begin(0, request), Look(0), Insert(0, id), Seal(0, 0), Commit(0, true)];
    var w0 := Initial(seed);
    var w1 := Step(w0, events[0], env);
    var w2 := Step(w1, events[1], env);
    assert HasId(seed, id);
    assert InsertRow(seed, [], request, 0, id, env) == Ok([]);
    var w3 := Step(w2, events[2], env);
    var w4 := Step(w3, events[3], env);
    var w5 := Step(w4, events[4], env);
    assert seed + [] == seed;
    worlds := [w0, w1, w2, w3, w4, w5];
  }

  function BothInserting(a: Request, b: Request): World {
    World(Store([], []), map[0 := Tx(a, Inserting, [], [], 0), 1 := Tx(b, Inserting, [], [], 0)], [])
  }

  lemma TwoCallsBegin(a: Request, b: Request, env: Environment) returns (worlds: seq<World>)
    requires a.failureStage.None? && b.failureStage.None?
    ensures IsRun([], worlds, [Begin(0, a), Begin(1, b), Look(0), Look(1)], env) && worlds[4] == BothInserting(a, b)
  {
    hide Key, Matches;
    var w0 := Initial([]);
    var w1 := Step(w0, Begin(0, a), env);
    var w2 := Step(w1, Begin(1, b), env);
    var w3 := Step(w2, Look(0), env);
    var w4 := Step(w3, Look(1), env);
    worlds := [w0, w1, w2, w3, w4];
  }

  lemma TwoCallsCommit(a: Request, b: Request, env: Environment) returns (u: World, v: World, x: World, y: World)
    requires a.rows == [] && b.rows == [] && a.failureStage.None? && b.failureStage.None? && Key(a) != Key(b)
    ensures var w := BothInserting(a, b);
            Enabled(w, Seal(0, 0)) && u == Step(w, Seal(0, 0), env) && Enabled(u, Seal(1, 1)) && v == Step(u, Seal(1, 1), env) &&
            Enabled(v, Commit(1, true)) && x == Step(v, Commit(1, true), env) &&
            Enabled(x, Commit(0, true)) && y == Step(x, Commit(0, true), env)
    ensures y.commits == [Committed(1, b, [], 1), Committed(0, a, [], 0)]
    ensures y.store.receipts == [MakeReceipt(b, 1), MakeReceipt(a, 0)]
  {
    hide Key, Matches, MakeReceipt;
    u := Step(BothInserting(a, b), Seal(0, 0), env);
    v := Step(u, Seal(1, 1), env);
    x := Step(v, Commit(1, true), env);
    y := Step(x, Commit(0, true), env);
  }

  /** Imports do overlap: both calls have begun before either commits, and the later one commits first. */
  lemma CallsOverlap(a: Request, b: Request, env: Environment) returns (worlds: seq<World>, events: seq<Event>)
    requires a.rows == [] && b.rows == [] && a.failureStage.None? && b.failureStage.None? && Key(a) != Key(b)
    ensures IsRun([], worlds, events, env)
    ensures worlds[|events|].commits == [Committed(1, b, [], 1), Committed(0, a, [], 0)]
    ensures worlds[|events|].store.receipts == [MakeReceipt(b, 1), MakeReceipt(a, 0)]
  {
    hide Key, MakeReceipt, Step, Enabled;
    var first := TwoCallsBegin(a, b, env);
    var early := [Begin(0, a), Begin(1, b), Look(0), Look(1)];
    var u, v, x, y := TwoCallsCommit(a, b, env);
    var late := [Seal(0, 0), Seal(1, 1), Commit(1, true), Commit(0, true)];
    worlds, events := first + [u, v, x, y], early + late;
    forall i | 0 <= i < |events| ensures Enabled(worlds[i], events[i]) && worlds[i + 1] == Step(worlds[i], events[i], env) {
      if i < 4 {
        assert worlds[i] == first[i] && worlds[i + 1] == first[i + 1] && events[i] == early[i];
      } else {
        assert events[i] == late[i - 4] && worlds[i + 1] == [u, v, x, y][i - 4];
      }
    }
  }

  // ---------- the tables over a run ----------

  predicate IsCommit(e: Event) {
    e.Commit?
  }

  function CommitsAmong(events: seq<Event>): nat {
    if |events| == 0 then 0 else CommitsAmong(events[..|events| - 1]) + if IsCommit(events[|events| - 1]) then 1 else 0
  }

  /**
   Between any two moments of a run both tables only grow, by one receipt for each commit in between;
   without a commit they stay as they were, whatever failed, was dropped or was replayed.
   */
  lemma {:induction false} TablesOnlyGrow(seed: seq<Stored>, worlds: seq<World>, events: seq<Event>, env: Environment,
                                         m: nat, n: nat)
    requires IsRun(seed, worlds, events, env) && m <= n <= |events|
    ensures var before, after, commits := worlds[m].store, worlds[n].store, CommitsAmong(events[m..n]);
            before.receipts <= after.receipts && before.readings <= after.readings &&
            |after.receipts| == |before.receipts| + commits && (commits == 0 ==> after == before)
    decreases n - m
  {
    hide LookTx, InsertTx, SealTx, MakeReceipt;
    if m < n {
      TablesOnlyGrow(seed, worlds, events, env, m, n - 1);
      OnlyCommitsWrite(worlds[n - 1], events[n - 1], env);
      var between := events[m..n];
      assert between[..|between| - 1] == events[m..n - 1] && between[|between| - 1] == events[n - 1];
    }
  }
}
