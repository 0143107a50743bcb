/**
 Concurrent import calls as interleaved transaction steps. PostgreSQL enters as snapshot-per-
 statement reads of committed data, atomic commit, rollback on drop, and unique indexes on which a
 second inserter waits for the first.
 */
module ImportProtocol {
  import opened Wrappers
  import opened ImportLedger

  datatype Phase = Looking | Inserting | Sealed | Done(reply: Reply)

  /** One call: what it has inserted so far under which generated ids, and the receipt it inserted last. */
  datatype Tx = Tx(request: Request, phase: Phase, ids: seq<nat>, pending: seq<Stored>, receiptId: nat)

  datatype Committed = Committed(tx: nat, request: Request, ids: seq<nat>, receiptId: nat)

  /** `commits` is history: the transactions that committed, in commit order. */
  datatype World = World(store: Store, txs: map<nat, Tx>, commits: seq<Committed>)

  datatype Event =
    | Begin(tx: nat, request: Request)
    | Look(tx: nat)
    | Insert(tx: nat, id: nat)
    | Seal(tx: nat, receiptId: nat)
    | Commit(tx: nat, acknowledged: bool)
    | Drop(tx: nat)

  function Finish(tx: Tx, reply: Reply): Tx {
    tx.(phase := Done(reply), pending := [])
  }

  /** No other transaction holds an uncommitted reading with this id. */
  predicate RowIdFree(w: World, t: nat, id: nat) {
    forall u :: u in w.txs && u != t ==> !HasId(w.txs[u].pending, id)
  }

  /** No other transaction holds an uncommitted receipt with this key or id. */
  predicate ReceiptFree(w: World, t: nat, key: string, id: nat) {
    forall u :: u in w.txs && u != t && w.txs[u].phase.Sealed? ==>
      Key(w.txs[u].request) != key && w.txs[u].receiptId != id
  }

  predicate Enabled(w: World, e: Event) {
    match e
    case Begin(t, _) => t !in w.txs
    case Look(t) => t in w.txs && w.txs[t].phase.Looking?
    case Insert(t, id) =>
      t in w.txs && w.txs[t].phase.Inserting? && |w.txs[t].ids| < |w.txs[t].request.rows| && RowIdFree(w, t, id)
    case Seal(t, id) =>
      t in w.txs && w.txs[t].phase.Inserting? && |w.txs[t].ids| == |w.txs[t].request.rows| &&
      ReceiptFree(w, t, Key(w.txs[t].request), id)
    case Commit(t, _) => t in w.txs && w.txs[t].phase.Sealed?
    case Drop(t) => t in w.txs && !w.txs[t].phase.Done?
  }

  function LookTx(store: Store, tx: Tx): Tx {
    match FindReceipt(store.receipts, Key(tx.request))
    case Some(r) => Finish(tx, if Matches(r, tx.request) then Ok((r, true)) else Err(ConflictingReplay))
    case None =>
      if tx.request.failureStage == Some(BeforeRows) then Finish(tx, Err(InjectedFailure(BeforeRows)))
      else tx.(phase := Inserting)
  }

  function InsertTx(store: Store, tx: Tx, id: nat, env: Environment): Tx
    requires |tx.ids| < |tx.request.rows|
  {
    match InsertRow(store.readings, tx.pending, tx.request, |tx.ids|, id, env)
    case Err(e) => Finish(tx, Err(e))
    case Ok(pending) => tx.(pending := pending, ids := tx.ids + [id])
  }

  function SealTx(store: Store, tx: Tx, id: nat): Tx {
    if FindReceipt(store.receipts, Key(tx.request)).Some? || HasReceiptId(store.receipts, id) then
      Finish(tx, Err(DuplicateReceipt))
    else if tx.request.failureStage == Some(BeforeCommit) then Finish(tx, Err(InjectedFailure(BeforeCommit)))
    else tx.(phase := Sealed, receiptId := id)
  }

  function Step(w: World, e: Event, env: Environment): World
    requires Enabled(w, e)
  {
    match e
    case Begin(t, request) => w.(txs := w.txs[t := Tx(request, Looking, [], [], 0)])
    case Look(t) => w.(txs := w.txs[t := LookTx(w.store, w.txs[t])])
    case Insert(t, id) => w.(txs := w.txs[t := InsertTx(w.store, w.txs[t], id, env)])
    case Seal(t, id) => w.(txs := w.txs[t := SealTx(w.store, w.txs[t], id)])
    case Commit(t, acknowledged) =>
      var tx := w.txs[t];
      var receipt := MakeReceipt(tx.request, tx.receiptId);
      World(Store(w.store.readings + tx.pending, w.store.receipts + [receipt]),
            w.txs[t := Finish(tx, if acknowledged then Ok((receipt, false)) else Err(Disconnected))],
            w.commits + [Committed(t, tx.request, tx.ids, tx.receiptId)])
    case Drop(t) => w.(txs := w.txs[t := Finish(w.txs[t], Err(Disconnected))])
  }

  function Initial(seed: seq<Stored>): World {
    World(Store(seed, []), map[], [])
  }

  /** Any interleaving: each event is enabled in the world the previous one left. */
  ghost predicate IsRun(seed: seq<Stored>, worlds: seq<World>, events: seq<Event>, env: Environment) {
    |worlds| == |events| + 1 && worlds[0] == Initial(seed) &&
    forall i :: 0 <= i < |events| ==> Enabled(worlds[i], events[i]) && worlds[i + 1] == Step(worlds[i], events[i], env)
  }

  // ---------- the invariant ----------

  /** The store the listed imports make when each runs alone after the ones before it; none unless all commit. */
  function Serial(seed: seq<Stored>, commits: seq<Committed>, env: Environment): Option<Store> {
    if commits == [] then Some(Store(seed, []))
    else
      var c := commits[|commits| - 1];
      match Serial(seed, commits[..|commits| - 1], env)
      case None => None
      case Some(before) =>
        if |c.ids| != |c.request.rows| then None
        else
          var (after, reply) := Apply(before, c.request, c.ids, c.receiptId, env);
          if reply == Ok((MakeReceipt(c.request, c.receiptId), false)) then Some(after) else None
  }

  /** What a transaction holds is what its rows amount to against the committed readings. */
  ghost predicate TxOk(store: Store, tx: Tx, env: Environment) {
    match tx.phase
    case Looking => tx.ids == [] && tx.pending == []
    case Inserting => RowsOk(store, tx, env)
    case Sealed =>
      RowsOk(store, tx, env) && |tx.ids| == |tx.request.rows| && tx.request.failureStage != Some(BeforeCommit) &&
      FindReceipt(store.receipts, Key(tx.request)).None? && !HasReceiptId(store.receipts, tx.receiptId)
    case Done(reply) => tx.pending == []
  }

  ghost predicate RowsOk(store: Store, tx: Tx, env: Environment) {
    |tx.ids| <= |tx.request.rows| && tx.request.failureStage != Some(BeforeRows) &&
    InsertRows(store.readings, tx.request, |tx.ids|, tx.ids, env) == Ok(tx.pending)
  }

  ghost predicate Disjoint(a: seq<Stored>, b: seq<Stored>) {
    forall i, j :: 0 <= i < |a| && 0 <= j < |b| ==> a[i].id != b[j].id
  }

  ghost predicate PairOk(tx: Tx, other: Tx) {
    Disjoint(tx.pending, other.pending) &&
    (tx.phase.Sealed? && other.phase.Sealed? ==>
       Key(tx.request) != Key(other.request) && tx.receiptId != other.receiptId)
  }

  /** An accepted reply carries the stored receipt for its key; a fresh one comes from the call's own commit. */
  ghost predicate ReplyOk(w: World, t: nat) {
    t in w.txs && w.txs[t].phase.Done? && w.txs[t].phase.reply.Ok? ==>
      var (receipt, replayed) := w.txs[t].phase.reply.value;
      receipt in w.store.receipts && receipt.key == Key(w.txs[t].request) && Matches(receipt, w.txs[t].request) &&
      (!replayed ==> exists i :: 0 <= i < |w.commits| && w.commits[i].tx == t && receipt == CommittedReceipt(w.commits[i]))
  }

  function CommittedReceipt(c: Committed): Receipt {
    MakeReceipt(c.request, c.receiptId)
  }

  ghost predicate ReceiptsOk(w: World) {
    |w.store.receipts| == |w.commits| &&
    (forall i :: 0 <= i < |w.commits| ==>
      w.store.receipts[i] == CommittedReceipt(w.commits[i]) &&
      w.commits[i].tx in w.txs && w.txs[w.commits[i].tx].phase.Done?) &&
    (forall i, j :: 0 <= i < j < |w.commits| ==>
      w.store.receipts[i].key != w.store.receipts[j].key && w.store.receipts[i].id != w.store.receipts[j].id &&
      w.commits[i].tx != w.commits[j].tx)
  }

  ghost predicate Inv(seed: seq<Stored>, w: World, env: Environment) {
    Serial(seed, w.commits, env) == Some(w.store) && ReceiptsOk(w) &&
    (forall t :: t in w.txs ==> TxOk(w.store, w.txs[t], env) && ReplyOk(w, t)) &&
    forall t, u :: t in w.txs && u in w.txs && t != u ==> PairOk(w.txs[t], w.txs[u])
  }

  lemma InitialInv(seed: seq<Stored>, env: Environment)
    ensures Inv(seed, Initial(seed), env)
  {
  }

  /** Replacing one transaction, with the store as it was, keeps the invariant when the new one is in order. */
  lemma LocalStep(seed: seq<Stored>, w: World, t: nat, tx: Tx, env: Environment)
    requires Inv(seed, w, env)
    requires t in w.txs ==> !w.txs[t].phase.Done?
    requires TxOk(w.store, tx, env) && ReplyOk(w.(txs := w.txs[t := tx]), t)
    requires forall u :: u in w.txs && u != t ==> PairOk(tx, w.txs[u]) && PairOk(w.txs[u], tx)
    ensures Inv(seed, w.(txs := w.txs[t := tx]), env)
  {
    hide Serial, TxOk, PairOk, Key, Matches;
    var w' := w.(txs := w.txs[t := tx]);
    forall u | u in w'.txs ensures TxOk(w'.store, w'.txs[u], env) && ReplyOk(w', u) {
      if u != t { assert ReplyOk(w, u); }
    }
  }

  // ---------- each event keeps it ----------

  lemma BeginKeepsInv(seed: seq<Stored>, w: World, t: nat, request: Request, env: Environment)
    requires Inv(seed, w, env) && t !in w.txs
    ensures Inv(seed, Step(w, Begin(t, request), env), env)
  {
    LocalStep(seed, w, t, Tx(request, Looking, [], [], 0), env);
  }

  lemma LookKeepsInv(seed: seq<Stored>, w: World, t: nat, env: Environment)
    requires Inv(seed, w, env) && Enabled(w, Look(t))
    ensures Inv(seed, Step(w, Look(t), env), env)
  {
    var tx := LookTx(w.store, w.txs[t]);
    LocalStep(seed, w, t, tx, env);
  }

  lemma InsertKeepsInv(seed: seq<Stored>, w: World, t: nat, id: nat, env: Environment)
    requires Inv(seed, w, env) && Enabled(w, Insert(t, id))
    ensures Inv(seed, Step(w, Insert(t, id), env), env)
  {
    hide Serial, ReceiptsOk, FindReceipt, Key, Matches;
    var old_ := w.txs[t];
    var tx := InsertTx(w.store, old_, id, env);
    if tx.phase.Inserting? {
      InsertRowsPrefix(w.store.readings, old_.request, |old_.ids|, old_.ids, tx.ids, env);
      forall u | u in w.txs && u != t ensures PairOk(tx, w.txs[u]) && PairOk(w.txs[u], tx) {
        assert PairOk(old_, w.txs[u]) && !HasId(w.txs[u].pending, id);
      }
    }
    LocalStep(seed, w, t, tx, env);
  }

  /** Only the first `k` generated ids matter to the first `k` rows. */
  lemma {:induction false} InsertRowsPrefix(base: seq<Stored>, request: Request, k: nat, ids: seq<nat>,
                                           more: seq<nat>, env: Environment)
    requires k <= |request.rows| && k <= |ids| && k <= |more| && ids[..k] == more[..k]
    ensures InsertRows(base, request, k, ids, env) == InsertRows(base, request, k, more, env)
  {
    if k > 0 {
      assert ids[..k][..k - 1] == ids[..k - 1] && more[..k][..k - 1] == more[..k - 1];
      InsertRowsPrefix(base, request, k - 1, ids, more, env);
      assert ids[k - 1] == ids[..k][k - 1] == more[..k][k - 1] == more[k - 1];
    }
  }

  lemma SealedIsOk(store: Store, tx: Tx, id: nat, env: Environment)
    requires TxOk(store, tx, env) && tx.phase.Inserting? && |tx.ids| == |tx.request.rows|
    ensures var sealed := SealTx(store, tx, id);
            TxOk(store, sealed, env) && sealed.request == tx.request &&
            if sealed.phase.Sealed? then sealed.pending == tx.pending && sealed.receiptId == id
            else sealed.phase.Done? && sealed.phase.reply.Err? && sealed.pending == []
  {
    hide InsertRows, FindReceipt, HasReceiptId, Key;
  }

  lemma NothingIsDisjoint(a: seq<Stored>)
    ensures Disjoint([], a) && Disjoint(a, [])
  {
  }

  lemma SealKeepsInv(seed: seq<Stored>, w: World, t: nat, id: nat, env: Environment)
    requires Inv(seed, w, env) && Enabled(w, Seal(t, id))
    ensures Inv(seed, Step(w, Seal(t, id), env), env)
  {
    hide Serial, ReceiptsOk, TxOk, FindReceipt, HasReceiptId, SealTx, Key, Matches, Disjoint;
    var tx := SealTx(w.store, w.txs[t], id);
    SealedIsOk(w.store, w.txs[t], id, env);
    forall u | u in w.txs && u != t ensures PairOk(tx, w.txs[u]) && PairOk(w.txs[u], tx) {
      assert PairOk(w.txs[t], w.txs[u]) && PairOk(w.txs[u], w.txs[t]);
      NothingIsDisjoint(w.txs[u].pending);
    }
    LocalStep(seed, w, t, tx, env);
  }

  lemma DropKeepsInv(seed: seq<Stored>, w: World, t: nat, env: Environment)
    requires Inv(seed, w, env) && Enabled(w, Drop(t))
    ensures Inv(seed, Step(w, Drop(t), env), env)
  {
    LocalStep(seed, w, t, Finish(w.txs[t], Err(Disconnected)), env);
  }

  /** Committing rows with other ids changes nothing another transaction has inserted or skipped. */
  lemma {:induction false} RowsSurviveCommit(base: seq<Stored>, extra: seq<Stored>, request: Request, k: nat,
                                            ids: seq<nat>, env: Environment)
    requires k <= |request.rows| && k <= |ids|
    requires InsertRows(base, request, k, ids, env).Ok?
    requires Disjoint(extra, InsertRows(base, request, k, ids, env).value)
    ensures InsertRows(base + extra, request, k, ids, env) == InsertRows(base, request, k, ids, env)
  {
    if k > 0 {
      var before := InsertRows(base, request, k - 1, ids, env).value;
      var after := InsertRows(base, request, k, ids, env).value;
      assert before <= after;
      assert Disjoint(extra, before) by {
        forall i, j | 0 <= i < |extra| && 0 <= j < |before| ensures extra[i].id != before[j].id {
          assert before[j] == after[j];
        }
      }
      RowsSurviveCommit(base, extra, request, k - 1, ids, env);
      HasIdConcat(base, extra, ids[k - 1]);
      if after != before {
        assert after[|after| - 1].id == ids[k - 1];
      }
    }
  }

  lemma HasIdConcat(a: seq<Stored>, b: seq<Stored>, id: nat)
    ensures HasId(a + b, id) <==> HasId(a, id) || HasId(b, id)
  {
    if HasId(a, id) {
      var i :| 0 <= i < |a| && a[i].id == id;
      assert (a + b)[i].id == id;
    }
    if HasId(b, id) {
      var i :| 0 <= i < |b| && b[i].id == id;
      assert (a + b)[|a| + i].id == id;
    }
  }

  lemma {:induction false} FindAfterAppend(receipts: seq<Receipt>, receipt: Receipt, key: string)
    requires FindReceipt(receipts, key).None? && receipt.key != key
    ensures FindReceipt(receipts + [receipt], key).None?
  {
    if receipts != [] {
      assert (receipts + [receipt])[1..] == receipts[1..] + [receipt];
      FindAfterAppend(receipts[1..], receipt, key);
    }
  }

  lemma OtherTxSurvivesCommit(store: Store, tx: Tx, other: Tx, env: Environment)
    requires TxOk(store, tx, env) && TxOk(store, other, env) && PairOk(tx, other) && tx.phase.Sealed?
    ensures TxOk(Store(store.readings + tx.pending, store.receipts + [MakeReceipt(tx.request, tx.receiptId)]), other, env)
  {
    if other.phase.Inserting? || other.phase.Sealed? {
      RowsSurviveCommit(store.readings, tx.pending, other.request, |other.ids|, other.ids, env);
    }
    if other.phase.Sealed? {
      FindAfterAppend(store.receipts, MakeReceipt(tx.request, tx.receiptId), Key(other.request));
    }
  }

  lemma CommitExtendsSerial(seed: seq<Stored>, w: World, t: nat, env: Environment)
    requires Inv(seed, w, env) && t in w.txs && w.txs[t].phase.Sealed?
    ensures var tx := w.txs[t];
            Serial(seed, w.commits + [Committed(t, tx.request, tx.ids, tx.receiptId)], env)
              == Some(Store(w.store.readings + tx.pending, w.store.receipts + [MakeReceipt(tx.request, tx.receiptId)]))
  {
    var tx := w.txs[t];
    var commits := w.commits + [Committed(t, tx.request, tx.ids, tx.receiptId)];
    assert commits[..|commits| - 1] == w.commits;
    assert TxOk(w.store, tx, env);
  }

  lemma CommitKeepsReceipts(w: World, t: nat, acknowledged: bool, env: Environment)
    requires ReceiptsOk(w) && Enabled(w, Commit(t, acknowledged)) && TxOk(w.store, w.txs[t], env)
    ensures ReceiptsOk(Step(w, Commit(t, acknowledged), env))
  {
    hide RowsOk, Key, Matches;
    var tx := w.txs[t];
    var w' := Step(w, Commit(t, acknowledged), env);
    var n := |w.commits|;
    forall i | 0 <= i < n
      ensures w'.store.receipts[i].key != w'.store.receipts[n].key && w'.store.receipts[i].id != w'.store.receipts[n].id
      ensures w'.commits[i].tx != t
    {
      assert w'.store.receipts[i] == w.store.receipts[i] && w'.commits[i] == w.commits[i];
    }
  }

  lemma CommitKeepsReplies(w: World, t: nat, acknowledged: bool, u: nat, env: Environment)
    requires Enabled(w, Commit(t, acknowledged)) && ReplyOk(w, u)
    ensures ReplyOk(Step(w, Commit(t, acknowledged), env), u)
  {
    var w' := Step(w, Commit(t, acknowledged), env);
    assert forall r :: r in w.store.receipts ==> r in w'.store.receipts;
    assert forall i :: 0 <= i < |w.commits| ==> w'.commits[i] == w.commits[i];
    var n := |w.commits|;
    assert w'.commits[n].tx == t && w'.store.receipts[|w.store.receipts|] == CommittedReceipt(w'.commits[n]);
  }

  lemma CommitKeepsInv(seed: seq<Stored>, w: World, t: nat, acknowledged: bool, env: Environment)
    requires Inv(seed, w, env) && Enabled(w, Commit(t, acknowledged))
    ensures Inv(seed, Step(w, Commit(t, acknowledged), env), env)
  {
    hide Serial, ReceiptsOk, RowsOk, Key, Matches, FindReceipt, MakeReceipt;
    var tx := w.txs[t];
    var w' := Step(w, Commit(t, acknowledged), env);
    CommitExtendsSerial(seed, w, t, env);
    CommitKeepsReceipts(w, t, acknowledged, env);
    forall u | u in w'.txs ensures TxOk(w'.store, w'.txs[u], env) && ReplyOk(w', u) {
      CommitKeepsReplies(w, t, acknowledged, u, env);
      if u != t { OtherTxSurvivesCommit(w.store, tx, w.txs[u], env); }
    }
    forall u, v | u in w'.txs && v in w'.txs && u != v ensures PairOk(w'.txs[u], w'.txs[v]) {
      if u != t && v != t { assert PairOk(w.txs[u], w.txs[v]); }
    }
  }

  lemma StepKeepsInv(seed: seq<Stored>, w: World, e: Event, env: Environment)
    requires Inv(seed, w, env) && Enabled(w, e)
    ensures Inv(seed, Step(w, e, env), env)
  {
    match e
    case Begin(t, request) => BeginKeepsInv(seed, w, t, request, env);
    case Look(t) => LookKeepsInv(seed, w, t, env);
    case Insert(t, id) => InsertKeepsInv(seed, w, t, id, env);
    case Seal(t, id) => SealKeepsInv(seed, w, t, id, env);
    case Commit(t, acknowledged) => CommitKeepsInv(seed, w, t, acknowledged, env);
    case Drop(t) => DropKeepsInv(seed, w, t, env);
  }

  lemma {:induction false} RunKeepsInv(seed: seq<Stored>, worlds: seq<World>, events: seq<Event>, env: Environment, n: nat)
    requires IsRun(seed, worlds, events, env) && n <= |events|
    ensures Inv(seed, worlds[n], env)
  {
    if n == 0 {
      InitialInv(seed, env);
    } else {
      RunKeepsInv(seed, worlds, events, env, n - 1);
      StepKeepsInv(seed, worlds[n - 1], events[n - 1], env);
    }
  }
}
