/** The transactional import commit: one call against the database, executed on its own (db.rs). */
module ImportLedger {
  import opened Wrappers

  datatype FailureStage = BeforeRows | DuringRows | BeforeCommit

  datatype Request = Request(
    station: string, rows: seq<seq<string>>, bundleDigest: string, planDigest: string, targetRevision: string,
    localOwner: string, mapping: string, evidence: string, byteCount: nat, failureStage: Option<FailureStage>)

  datatype Receipt = Receipt(
    id: nat, key: string, bundleDigest: string, planDigest: string, targetRevision: string,
    localOwner: string, mapping: string, evidence: string, rowCount: nat, byteCount: int)

  datatype Reading = Reading(station: string, measuredAt: string, pm25: string, no2: string, ozone: string)

  datatype Stored = Stored(id: nat, reading: Reading)

  /** The two tables an import writes to. */
  datatype Store = Store(readings: seq<Stored>, receipts: seq<Receipt>)

  datatype ImportError =
    | ConflictingReplay | InjectedFailure(stage: FailureStage) | InvalidRow(ordinal: nat)
    | DuplicateReceipt | Disconnected

  /** The receipt, and whether it was there before. */
  type Reply = Result<(Receipt, bool), ImportError>

  /** Library parsers for the cells, and the stations the foreign key accepts. */
  datatype Environment = Environment(isTimestamp: string -> bool, isF64: string -> bool, stations: set<string>)

  function KeyText(digest: string, station: string, revision: string): string {
    digest + ":" + station + ":" + revision
  }

  function Key(request: Request): string {
    KeyText(request.bundleDigest, request.station, request.targetRevision)
  }

  /** Rust's `u64 as i64`. */
  function AsI64(n: nat): int {
    var m := n % 0x1_0000_0000_0000_0000;
    if m < 0x8000_0000_0000_0000 then m else m - 0x1_0000_0000_0000_0000
  }

  function MakeReceipt(request: Request, id: nat): Receipt {
    Receipt(id, Key(request), request.bundleDigest, request.planDigest, request.targetRevision,
            request.localOwner, request.mapping, request.evidence, |request.rows|, AsI64(request.byteCount))
  }

  /** The existing receipt was issued for this plan, so the request is a replay of it. */
  predicate Matches(r: Receipt, request: Request) {
    r.planDigest == request.planDigest && r.bundleDigest == request.bundleDigest &&
    r.localOwner == request.localOwner && r.mapping == request.mapping &&
    r.byteCount == AsI64(request.byteCount) && r.targetRevision == request.targetRevision
  }

  function FindReceipt(receipts: seq<Receipt>, key: string): (r: Option<Receipt>)
    ensures r.Some? ==> r.value in receipts && r.value.key == key
    ensures r.None? ==> forall i :: 0 <= i < |receipts| ==> receipts[i].key != key
  {
    if receipts == [] then None
    else if receipts[0].key == key then Some(receipts[0]) else FindReceipt(receipts[1..], key)
  }

  predicate HasId(rows: seq<Stored>, id: nat) {
    exists i :: 0 <= i < |rows| && rows[i].id == id
  }

  predicate HasReceiptId(receipts: seq<Receipt>, id: nat) {
    exists i :: 0 <= i < |receipts| && receipts[i].id == id
  }

  predicate ValidRow(row: seq<string>, env: Environment) {
    |row| == 4 && env.isTimestamp(row[0]) && env.isF64(row[1]) && env.isF64(row[2]) && env.isF64(row[3])
  }

  /** One row, against the committed readings and those this transaction added: `ON CONFLICT DO NOTHING`. */
  function InsertRow(base: seq<Stored>, pending: seq<Stored>, request: Request, ordinal: nat, id: nat, env: Environment)
    : Result<seq<Stored>, ImportError>
    requires ordinal < |request.rows|
  {
    var row := request.rows[ordinal];
    if !ValidRow(row, env) then Err(InvalidRow(ordinal))
    else
      var conflict := HasId(base, id) || HasId(pending, id);
      if !conflict && request.station !in env.stations then Err(InvalidRow(ordinal))
      else if request.failureStage == Some(DuringRows) && ordinal == 0 then Err(InjectedFailure(DuringRows))
      else if conflict then Ok(pending)
      else Ok(pending + [Stored(id, Reading(request.station, row[0], row[1], row[2], row[3]))])
  }

  /** The rows a transaction holds after its first `k`, whose generated ids are `ids`. */
  function InsertRows(base: seq<Stored>, request: Request, k: nat, ids: seq<nat>, env: Environment)
    : (r: Result<seq<Stored>, ImportError>)
    requires k <= |request.rows| && k <= |ids|
    ensures r.Ok? ==> |r.value| <= k
  {
    if k == 0 then Ok([])
    else
      match InsertRows(base, request, k - 1, ids, env)
      case Err(e) => Err(e)
      case Ok(pending) => InsertRow(base, pending, request, k - 1, ids[k - 1], env)
  }

  /** The whole call, run with no other transaction in sight. */
  function Apply(store: Store, request: Request, ids: seq<nat>, receiptId: nat, env: Environment): (Store, Reply)
    requires |ids| == |request.rows|
  {
    match FindReceipt(store.receipts, Key(request))
    case Some(r) => (store, if Matches(r, request) then Ok((r, true)) else Err(ConflictingReplay))
    case None =>
      if request.failureStage == Some(BeforeRows) then (store, Err(InjectedFailure(BeforeRows)))
      else
        match InsertRows(store.readings, request, |request.rows|, ids, env)
        case Err(e) => (store, Err(e))
        case Ok(pending) =>
          if HasReceiptId(store.receipts, receiptId) then (store, Err(DuplicateReceipt))
          else if request.failureStage == Some(BeforeCommit) then (store, Err(InjectedFailure(BeforeCommit)))
          else
            var receipt := MakeReceipt(request, receiptId);
            (Store(store.readings + pending, store.receipts + [receipt]), Ok((receipt, false)))
  }

  /** The database handle; `ids` and `receiptId` are the version 7 UUIDs the call generates. */
  class Database {
    var store: Store

    constructor (seed: seq<Stored>)
      ensures store == Store(seed, [])
    {
      store := Store(seed, []);
    }

    method ApplyImport(request: Request, ids: seq<nat>, receiptId: nat, env: Environment) returns (reply: Reply)
      requires |ids| == |request.rows|
      modifies this
      ensures (store, reply) == Apply(old(store), request, ids, receiptId, env)
    {
      var existing := FindReceipt(store.receipts, Key(request));
      if existing.Some? {
        if !Matches(existing.value, request) {
          return Err(ConflictingReplay);
        }
        return Ok((existing.value, true));
      }
      if request.failureStage == Some(BeforeRows) {
        return Err(InjectedFailure(BeforeRows));
      }
      var pending: seq<Stored> := [];
      var ordinal := 0;
      while ordinal < |request.rows|
        invariant 0 <= ordinal <= |request.rows| && store == old(store)
        invariant InsertRows(store.readings, request, ordinal, ids, env) == Ok(pending)
      {
        var row := request.rows[ordinal];
        ghost var next := InsertRow(store.readings, pending, request, ordinal, ids[ordinal], env);
        assert InsertRows(store.readings, request, ordinal + 1, ids, env) == next;
        EarlyFailure(store.readings, request, ordinal + 1, |request.rows|, ids, env);
        if |row| != 4 {
          return Err(InvalidRow(ordinal));
        }
        if !env.isTimestamp(row[0]) || !env.isF64(row[1]) || !env.isF64(row[2]) || !env.isF64(row[3]) {
          return Err(InvalidRow(ordinal));
        }
        var id := ids[ordinal];
        if !HasId(store.readings, id) && !HasId(pending, id) {
          if request.station !in env.stations {
            return Err(InvalidRow(ordinal));
          }
          pending := pending + [Stored(id, Reading(request.station, row[0], row[1], row[2], row[3]))];
        }
        if request.failureStage == Some(DuringRows) && ordinal == 0 {
          return Err(InjectedFailure(DuringRows));
        }
        ordinal := ordinal + 1;
      }
      if HasReceiptId(store.receipts, receiptId) {
        return Err(DuplicateReceipt);
      }
      var receipt := MakeReceipt(request, receiptId);
      if request.failureStage == Some(BeforeCommit) {
        return Err(InjectedFailure(BeforeCommit));
      }
      store := Store(store.readings + pending, store.receipts + [receipt]);
      return Ok((receipt, false));
    }
  }

  /** A row that fails fails the whole list. */
  lemma {:induction false} EarlyFailure(base: seq<Stored>, request: Request, k: nat, n: nat, ids: seq<nat>, env: Environment)
    requires k <= n <= |request.rows| && n <= |ids|
    ensures InsertRows(base, request, k, ids, env).Err? ==>
              InsertRows(base, request, n, ids, env) == InsertRows(base, request, k, ids, env)
    decreases n - k
  {
    if k < n {
      EarlyFailure(base, request, k, n - 1, ids, env);
    }
  }

  // ---------- the idempotency key ----------

  const UUID_LENGTH: nat := 36

  /** The text of a UUID: groups of lower-case hexadecimal digits joined by hyphens. */
  predicate IsUuidText(s: string) {
    |s| == UUID_LENGTH && forall i :: 0 <= i < |s| ==> s[i] == '-' || IsLowerHex(s[i])
  }

  predicate IsLowerHex(c: char) {
    '0' <= c <= '9' || 'a' <= c <= 'f'
  }

  /** The import a request asks for: its bundle, station and revision. */
  predicate SameImport(a: Request, b: Request) {
    a.bundleDigest == b.bundleDigest && a.station == b.station && a.targetRevision == b.targetRevision
  }

  /** With stations of one length, key and digest length together name the import, and nothing less does. */
  lemma KeyNamesTheImport(a: Request, b: Request)
    requires |a.station| == |b.station|
    ensures SameImport(a, b) <==> Key(a) == Key(b) && |a.bundleDigest| == |b.bundleDigest|
  {
    SplitKey(a);
    SplitKey(b);
  }

  lemma SplitKey(r: Request)
    ensures var n, m := |r.bundleDigest|, |r.station|;
            |Key(r)| >= n + m + 2 && Key(r)[..n] == r.bundleDigest && Key(r)[n + 1..n + 1 + m] == r.station &&
            Key(r)[n + m + 2..] == r.targetRevision
  {
  }

  const DIGEST_TAG := "blake3-256:"

  /** `blake3-256:` and 64 lower-case hexadecimal digits. */
  predicate IsTypedDigest(s: string) {
    |s| == |DIGEST_TAG| + 64 && s[..|DIGEST_TAG|] == DIGEST_TAG &&
    forall i :: |DIGEST_TAG| <= i < |s| ==> IsLowerHex(s[i])
  }

  /** For typed digests the key alone names the import. */
  lemma TypedKeyNamesTheImport(a: Request, b: Request)
    requires IsTypedDigest(a.bundleDigest) && IsTypedDigest(b.bundleDigest)
    requires |a.station| == |b.station|
    ensures SameImport(a, b) <==> Key(a) == Key(b)
  {
    KeyNamesTheImport(a, b);
  }

  /**
   The longer digest is the shorter one with a colon and the text of a UUID behind it, which ends it
   or is followed by a colon.
   */
  predicate Extends(digest: string, longer: string) {
    var n := |digest| + 1 + UUID_LENGTH;
    |longer| >= n && longer[..|digest|] == digest && longer[|digest|] == ':' &&
    IsUuidText(longer[|digest| + 1..n]) && (|longer| > n ==> longer[n] == ':')
  }

  /** Two requests with these digests can have one key. */
  ghost predicate CanCollide(digest: string, longer: string) {
    exists s, r, s', r' ::
      IsUuidText(s) && IsUuidText(s') && KeyText(digest, s, r) == KeyText(longer, s', r')
  }

  /** Exactly then: so keys are ambiguous for some digests, and for which ones can be read off the digests. */
  lemma KeysCollideExactly(digest: string, longer: string)
    requires |digest| < |longer|
    ensures CanCollide(digest, longer) <==> Extends(digest, longer)
  {
    if CanCollide(digest, longer) {
      var s, r, s', r' :| IsUuidText(s) && IsUuidText(s') && KeyText(digest, s, r) == KeyText(longer, s', r');
      CollisionExtends(digest, s, r, longer, s', r');
    }
    if Extends(digest, longer) {
      var n := |digest| + 1 + UUID_LENGTH;
      var s := longer[|digest| + 1..n];
      ExtensionCollides(digest, s, longer[n..], s, "");
      assert longer == digest + ":" + s + longer[n..];
      assert KeyText(digest, s, (longer[n..] + ":" + s + ":")[1..]) == KeyText(longer, s, "");
    }
  }

  predicate NoColonBetween(s: string, from: nat, to: nat)
    requires to <= |s|
  {
    forall i :: from <= i < to ==> s[i] != ':'
  }

  lemma CollisionExtends(digest: string, s: string, r: string, longer: string, s': string, r': string)
    requires |digest| < |longer| && IsUuidText(s) && KeyText(digest, s, r) == KeyText(longer, s', r')
    ensures Extends(digest, longer)
  {
    var key, d, n := KeyText(digest, s, r), |digest|, |digest| + 1 + UUID_LENGTH;
    assert key == digest + (":" + s + ":" + r) && key == longer + (":" + s' + ":" + r');
    assert forall i :: 0 <= i < d ==> longer[i] == key[i] == digest[i];
    assert key[d] == ':' && key[n] == ':' && key[d + 1..n] == s;
    assert NoColonBetween(key, d + 1, n) by {
      forall i | d + 1 <= i < n ensures key[i] != ':' { assert key[i] == s[i - d - 1]; }
    }
    assert key[|longer|] == ':';
    assert longer[..d] == digest && longer[d + 1..n] == key[d + 1..n];
  }

  lemma ExtensionCollides(digest: string, s: string, tail: string, s': string, r': string)
    requires tail == "" || tail[0] == ':'
    ensures var rest := tail + ":" + s' + ":" + r';
            KeyText(digest, s, rest[1..]) == KeyText(digest + ":" + s + tail, s', r')
  {
    var rest := tail + ":" + s' + ":" + r';
    assert rest == ":" + rest[1..];
    assert KeyText(digest, s, rest[1..]) == digest + ":" + s + (":" + rest[1..]);
  }

  /** Two imports the code can be asked for that share a key, whatever the station. */
  lemma FreeFormKeysCollide(a: Request, station: string)
    requires IsUuidText(station)
    ensures var x := a.(bundleDigest := "x", station := station, targetRevision := station + ":r");
            var y := a.(bundleDigest := "x:" + station, station := station, targetRevision := "r");
            Key(x) == Key(y) && !SameImport(x, y)
  {
    assert KeyText("x", station, station + ":r") == KeyText("x:" + station, station, "r");
  }
}
