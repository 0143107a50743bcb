/** What every import call is answered and why, field by field. */
module ImportReplies {
  import opened Wrappers
  import opened ImportLedger
  import opened ImportProtocol
  import opened ImportLaws
  import opened ImportContents

  // ---------- one call on its own ----------

  /** The receipt was issued for this plan, bundle, owner, mapping, size and revision. */
  predicate Agrees(r: Receipt, request: Request) {
    r.planDigest == request.planDigest && r.bundleDigest == request.bundleDigest &&
    r.localOwner == request.localOwner && r.mapping == request.mapping &&
    r.targetRevision == request.targetRevision && Wraps(r.byteCount, request.byteCount)
  }

  function KeyOf(request: Request): string {
    request.bundleDigest + ":" + request.station + ":" + request.targetRevision
  }

  predicate FirstUnder(receipts: seq<Receipt>, key: string, i: nat) {
    i < |receipts| && receipts[i].key == key && forall j :: 0 <= j < i ==> receipts[j].key != key
  }

  ghost predicate RowFails(base: seq<Stored>, request: Request, ids: seq<nat>, env: Environment, i: nat)
    requires i < |request.rows| && i < |ids|
  {
    !Readable(request.rows[i], env) || (request.station !in env.stations && Free(base, ids, i))
  }

  /** No row fails, and no failure was asked for before or among them. */
  ghost predicate RowsPass(base: seq<Stored>, request: Request, ids: seq<nat>, env: Environment)
    requires |ids| == |request.rows|
  {
    (forall i :: 0 <= i < |request.rows| ==> !RowFails(base, request, ids, env, i)) &&
    request.failureStage != Some(BeforeRows) && (request.rows != [] ==> request.failureStage != Some(DuringRows))
  }

  /** The condition for each answer; they exclude one another, so it is the only answer possible. */
  ghost predicate Answers(
    store: Store, request: Request, ids: seq<nat>, receiptId: nat, env: Environment, reply: Reply)
    requires |ids| == |request.rows|
  {
    var known, stage := exists i: nat :: FirstUnder(store.receipts, KeyOf(request), i), request.failureStage;
    var idTaken := exists i :: 0 <= i < |store.receipts| && store.receipts[i].id == receiptId;
    match reply
    case Ok((receipt, true)) =>
      exists i: nat :: FirstUnder(store.receipts, KeyOf(request), i) && receipt == store.receipts[i] && Agrees(receipt, request)
    case Err(ConflictingReplay) =>
      exists i: nat :: FirstUnder(store.receipts, KeyOf(request), i) && !Agrees(store.receipts[i], request)
    case Err(InjectedFailure(BeforeRows)) => !known && stage == Some(BeforeRows)
    case Err(InvalidRow(i)) =>
      !known && stage != Some(BeforeRows) && i < |request.rows| && RowFails(store.readings, request, ids, env, i) &&
      (forall j :: 0 <= j < i ==> !RowFails(store.readings, request, ids, env, j)) &&
      (i > 0 ==> stage != Some(DuringRows))
    case Err(InjectedFailure(DuringRows)) =>
      !known && stage == Some(DuringRows) && request.rows != [] && !RowFails(store.readings, request, ids, env, 0)
    case Err(DuplicateReceipt) => !known && RowsPass(store.readings, request, ids, env) && idTaken
    case Err(InjectedFailure(BeforeCommit)) =>
      !known && RowsPass(store.readings, request, ids, env) && !idTaken && stage == Some(BeforeCommit)
    case Ok((receipt, false)) =>
      !known && RowsPass(store.readings, request, ids, env) && !idTaken && stage != Some(BeforeCommit) &&
      Records(receipt, request) && receipt.id == receiptId
    case Err(Disconnected) => false
  }

  lemma {:induction false} FoundIsFirst(receipts: seq<Receipt>, key: string)
    ensures match FindReceipt(receipts, key)
            case None => forall i: nat :: !FirstUnder(receipts, key, i)
            case Some(r) => exists i: nat :: FirstUnder(receipts, key, i) && receipts[i] == r
  {
    if receipts != [] && receipts[0].key != key {
      FoundIsFirst(receipts[1..], key);
      if FindReceipt(receipts, key).Some? {
        var i: nat :| FirstUnder(receipts[1..], key, i) && receipts[1..][i] == FindReceipt(receipts, key).value;
        assert receipts[i + 1] == receipts[1..][i];
        forall j | 0 <= j < i + 1 ensures receipts[j].key != key {
          if j > 0 { assert receipts[j] == receipts[1..][j - 1]; }
        }
        assert FirstUnder(receipts, key, i + 1);
      }
    } else if receipts != [] {
      assert FirstUnder(receipts, key, 0);
    }
  }

  lemma MatchesIsAgreement(r: Receipt, request: Request)
    ensures Matches(r, request) <==> Agrees(r, request)
  {
  }

  lemma PassedRows(base: seq<Stored>, request: Request, k: nat, ids: seq<nat>, env: Environment)
    requires k <= |request.rows| == |ids| && InsertRows(base, request, k, ids, env).Ok?
    ensures forall i :: 0 <= i < k ==> !RowFails(base, request, ids, env, i)
    ensures k > 0 ==> request.failureStage != Some(DuringRows)
  {
    var ordinals := RowsAdded(base, request, k, ids, env);
    forall i | 0 <= i < k ensures !RowFails(base, request, ids, env, i) {
      assert Free(base, ids, i) ==> i in ordinals;
    }
  }

  lemma {:induction false} FailedRows(base: seq<Stored>, request: Request, k: nat, ids: seq<nat>, env: Environment)
    requires k <= |request.rows| == |ids| && InsertRows(base, request, k, ids, env).Err?
    ensures request.rows != []
    ensures var e := InsertRows(base, request, k, ids, env).error;
            if e == InjectedFailure(DuringRows) then
              request.failureStage == Some(DuringRows) && !RowFails(base, request, ids, env, 0)
            else
              e.InvalidRow? && e.ordinal < k && RowFails(base, request, ids, env, e.ordinal) &&
              (forall j :: 0 <= j < e.ordinal ==> !RowFails(base, request, ids, env, j)) &&
              (e.ordinal > 0 ==> request.failureStage != Some(DuringRows))
  {
    if InsertRows(base, request, k - 1, ids, env).Err? {
      FailedRows(base, request, k - 1, ids, env);
    } else {
      PassedRows(base, request, k - 1, ids, env);
      FreeIsUnheld(base, request, k - 1, ids, env);
    }
  }

  lemma OneCallIsAnswered(store: Store, request: Request, ids: seq<nat>, receiptId: nat, env: Environment)
    requires |ids| == |request.rows|
    ensures Answers(store, request, ids, receiptId, env, Apply(store, request, ids, receiptId, env).1)
  {
    hide FindReceipt, Matches, Agrees, RowFails, InsertRows, MakeReceipt, Records;
    FoundIsFirst(store.receipts, Key(request));
    assert Key(request) == KeyOf(request);
    match FindReceipt(store.receipts, Key(request))
    case Some(r) => MatchesIsAgreement(r, request);
    case None =>
      ReceiptRecords(request, receiptId);
      var n := |request.rows|;
      if InsertRows(store.readings, request, n, ids, env).Ok? {
        PassedRows(store.readings, request, n, ids, env);
      } else {
        FailedRows(store.readings, request, n, ids, env);
      }
  }

  // ---------- the same call as a transaction with no other beside it ----------

  /** The insert steps of one transaction, up to its last row or its first failure. */
  function InsertAll(store: Store, tx: Tx, ids: seq<nat>, env: Environment): Tx
    requires |ids| == |tx.request.rows|
    decreases if tx.phase.Inserting? then 1 + |tx.request.rows| - |tx.ids| else 0
  {
    if tx.phase.Inserting? && |tx.ids| < |tx.request.rows| then
      InsertAll(store, InsertTx(store, tx, ids[|tx.ids|], env), ids, env)
    else tx
  }

  /** All its steps up to the commit. */
  function Alone(store: Store, request: Request, ids: seq<nat>, receiptId: nat, env: Environment): Tx
    requires |ids| == |request.rows|
  {
    var tx := InsertAll(store, LookTx(store, Tx(request, Looking, [], [], 0)), ids, env);
    if tx.phase.Inserting? then SealTx(store, tx, receiptId) else tx
  }

  lemma {:induction false} InsertAllIsInsertRows(store: Store, tx: Tx, ids: seq<nat>, env: Environment)
    requires |ids| == |tx.request.rows| && tx.phase.Inserting? && tx.ids <= ids
    requires InsertRows(store.readings, tx.request, |tx.ids|, ids, env) == Ok(tx.pending)
    ensures var last := InsertAll(store, tx, ids, env);
            match InsertRows(store.readings, tx.request, |ids|, ids, env)
            case Ok(pending) => last == tx.(ids := ids, pending := pending)
            case Err(e) => last.phase == Done(Err(e))
    decreases |ids| - |tx.ids|
  {
    var k := |tx.ids|;
    if k < |ids| {
      var next := InsertTx(store, tx, ids[k], env);
      assert tx.ids + [ids[k]] <= ids;
      if next.phase.Inserting? {
        InsertAllIsInsertRows(store, next, ids, env);
      } else {
        EarlyFailure(store.readings, tx.request, k + 1, |ids|, ids, env);
      }
    } else {
      assert tx.ids == ids;
    }
  }

  /** With no other transaction beside it, a call is answered as when run in one go, and would commit the same. */
  lemma AloneIsOneCall(store: Store, request: Request, ids: seq<nat>, receiptId: nat, env: Environment)
    requires |ids| == |request.rows|
    ensures var tx, (after, reply) := Alone(store, request, ids, receiptId, env), Apply(store, request, ids, receiptId, env);
            if tx.phase.Sealed? then
              reply == Ok((MakeReceipt(request, tx.receiptId), false)) &&
              after == Store(store.readings + tx.pending, store.receipts + [MakeReceipt(request, tx.receiptId)])
            else (tx.phase == Done(reply) && after == store)
  {
    hide FindReceipt, Key, Matches, InsertRows, HasReceiptId, MakeReceipt, InsertTx;
    var looked := LookTx(store, Tx(request, Looking, [], [], 0));
    if looked.phase.Inserting? {
      NoRowsYet(store, request, ids, env);
      InsertAllIsInsertRows(store, looked, ids, env);
    }
  }

  lemma NoRowsYet(store: Store, request: Request, ids: seq<nat>, env: Environment)
    ensures InsertRows(store.readings, request, 0, ids, env) == Ok([])
  {
  }

  // ---------- any call of any run ----------

  /** The two imports are one: same plan, bundle, owner, mapping and revision, sizes congruent as 64-bit numbers. */
  predicate SameCall(a: Request, b: Request) {
    a.planDigest == b.planDigest && a.bundleDigest == b.bundleDigest && a.localOwner == b.localOwner &&
    a.mapping == b.mapping && a.targetRevision == b.targetRevision &&
    (a.byteCount - b.byteCount) % 0x1_0000_0000_0000_0000 == 0
  }

  /** A refusal has its reason in the request or in the receipts. */
  ghost predicate Refused(w: World, request: Request, e: ImportError, env: Environment) {
    match e
    case ConflictingReplay =>
      exists r :: r in w.store.receipts && r.key == KeyOf(request) && !Agrees(r, request)
    case InjectedFailure(stage) => request.failureStage == Some(stage)
    case InvalidRow(i) => i < |request.rows| && (!Readable(request.rows[i], env) || request.station !in env.stations)
    case DuplicateReceipt => w.store.receipts != []
    case Disconnected => true
  }

  ghost predicate RefusalOk(w: World, t: nat, env: Environment) {
    t in w.txs && w.txs[t].phase.Done? && w.txs[t].phase.reply.Err? ==>
      Refused(w, w.txs[t].request, w.txs[t].phase.reply.error, env)
  }

  lemma StepKeepsRefusals(w: World, e: Event, env: Environment, t: nat)
    requires Enabled(w, e) && RefusalOk(w, t, env)
    ensures RefusalOk(Step(w, e, env), t, env)
  {
    hide Matches, Agrees, HasId;
    assert forall r: Receipt, q: Request :: Matches(r, q) <==> Agrees(r, q) by {
      forall r: Receipt, q: Request ensures Matches(r, q) <==> Agrees(r, q) { MatchesIsAgreement(r, q); }
    }
    OnlyCommitsWrite(w, e, env);
    var v := Step(w, e, env);
    assert forall r :: r in w.store.receipts ==> r in v.store.receipts;
  }

  lemma {:induction false} RefusalsHaveReasons(
    seed: seq<Stored>, worlds: seq<World>, events: seq<Event>, env: Environment, n: nat, t: nat)
    requires IsRun(seed, worlds, events, env) && n <= |events|
    ensures RefusalOk(worlds[n], t, env)
  {
    if n > 0 {
      RefusalsHaveReasons(seed, worlds, events, env, n - 1, t);
      StepKeepsRefusals(worlds[n - 1], events[n - 1], env, t);
    }
  }

  /**
   Every accepted call of a run is answered with the receipt of one commit, and that commit was for the same
   plan, bundle, owner, mapping, revision and size.
   */
  lemma AcceptedCallsAreCommitted(
    seed: seq<Stored>, worlds: seq<World>, events: seq<Event>, env: Environment, n: nat, t: nat) returns (k: nat)
    requires IsRun(seed, worlds, events, env) && n <= |events|
    requires var w := worlds[n]; t in w.txs && w.txs[t].phase.Done? && w.txs[t].phase.reply.Ok?
    ensures var w := worlds[n];
            k < |w.commits| && k < |w.store.receipts| && w.store.receipts[k] == w.txs[t].phase.reply.value.0 &&
            w.store.receipts[k].key == KeyOf(w.txs[t].request) &&
            Records(w.store.receipts[k], w.commits[k].request) && SameCall(w.commits[k].request, w.txs[t].request)
  {
    hide Serial, TxOk, PairOk, Key, Matches, MakeReceipt, Records, Agrees;
    RunKeepsInv(seed, worlds, events, env, n);
    var w := worlds[n];
    assert ReplyOk(w, t);
    var (r, replayed) := w.txs[t].phase.reply.value;
    k :| 0 <= k < |w.store.receipts| && w.store.receipts[k] == r;
    ReceiptRecords(w.commits[k].request, w.commits[k].receiptId);
    MatchesIsAgreement(r, w.txs[t].request);
    AgreementIsSameCall(r, w.commits[k].request, w.txs[t].request);
    KeyIsKeyOf(w.txs[t].request);
  }

  lemma KeyIsKeyOf(request: Request)
    ensures Key(request) == KeyOf(request)
  {
  }

  lemma AgreementIsSameCall(r: Receipt, a: Request, b: Request)
    requires Records(r, a) && Agrees(r, b)
    ensures SameCall(a, b)
  {
  }
}
