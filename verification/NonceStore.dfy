/**
 The one-time nonces of OIDC4VP transactions: pkg/storage/mongodb/oidcnoncestore/tx_nonce_store.go,
 with the database's background purge of expired documents.
 */
module NonceStores {
  import opened Wrappers

  type TxID = string

  // Instants are counted from Go's zero time, which no clock shows any more.
  const ZERO_TIME := 0

  datatype NonceDoc = NonceDoc(txID: TxID, expireAt: int)

  type Docs = map<string, NonceDoc>

  // FindOneAndDelete: whatever goes wrong leaves the zero document behind, which reads as expired.
  function Take(docs: Docs, nonce: string, now: int, outcome: WriteOutcome): (Docs, Option<TxID>) {
    if outcome == FailedUnapplied then (docs, None)
    else if nonce !in docs || outcome == FailedApplied then (docs - {nonce}, None)
    else (docs - {nonce}, if docs[nonce].expireAt < now then None else Some(docs[nonce].txID))
  }

  // InsertOne: an existing document, expired or not, makes the answer false.
  function Put(docs: Docs, nonce: string, doc: NonceDoc, outcome: WriteOutcome): (Docs, Option<bool>) {
    var docs' := if nonce !in docs && outcome.Applied() then docs[nonce := doc] else docs;
    (docs', if outcome == Done then Some(nonce !in docs) else None)
  }

  // The database may drop any expired documents at any time.
  function Purge(docs: Docs, nonces: set<string>): Docs {
    docs - nonces
  }

  class TxNonceStore {
    var docs: Docs

    constructor ()
      ensures docs == map[]
    {
      docs := map[];
    }

    // The error branch after the expiry test is never reached.
    method GetAndDelete(nonce: string, now: int, outcome: WriteOutcome) returns (txID: TxID, valid: bool, failed: bool)
      requires now > ZERO_TIME
      modifies this
      ensures docs == Take(old(docs), nonce, now, outcome).0
      ensures valid <==> Take(old(docs), nonce, now, outcome).1.Some?
      ensures txID == (if valid then Take(old(docs), nonce, now, outcome).1.value else "")
      ensures !failed
    {
      var doc := NonceDoc("", ZERO_TIME);
      var noDocuments, err := false, false;
      if outcome != Done {
        err := true;
        if outcome.Applied() {
          docs := docs - {nonce};
        }
      } else if nonce !in docs {
        noDocuments, err := true, true;
      } else {
        doc := docs[nonce];
        docs := docs - {nonce};
      }

      if noDocuments || doc.expireAt < now {
        return "", false, false;
      }
      if err {
        return "", false, true;
      }
      return doc.txID, true, false;
    }

    method SetIfNotExist(nonce: string, txID: TxID, expiration: int, now: int, outcome: WriteOutcome)
      returns (r: Option<bool>)
      modifies this
      ensures (docs, r) == Put(old(docs), nonce, NonceDoc(txID, now + expiration), outcome)
    {
      if nonce in docs {
        return if outcome == Done then Some(false) else None;
      }
      if outcome.Applied() {
        docs := docs[nonce := NonceDoc(txID, now + expiration)];
      }
      r := if outcome == Done then Some(true) else None;
    }
  }

  // ---- The map of unexpired nonces ----

  function Live(docs: Docs, now: int): Docs {
    map nonce | nonce in docs && docs[nonce].expireAt >= now :: docs[nonce]
  }

  // A purge is invisible exactly when every document it drops has expired strictly before now: one that
  // expires at this very instant would still have been honoured.
  lemma PurgeInvisibleIff(docs: Docs, nonces: set<string>, now: int)
    ensures Live(Purge(docs, nonces), now) == Live(docs, now) <==>
            forall nonce :: nonce in nonces && nonce in docs ==> docs[nonce].expireAt < now
  {
    if Live(Purge(docs, nonces), now) == Live(docs, now) {
      forall nonce | nonce in nonces && nonce in docs ensures docs[nonce].expireAt < now {
        assert nonce !in Live(Purge(docs, nonces), now);
      }
    }
  }

  // Consuming a nonce answers from the unexpired ones alone, and removes it from them.
  lemma TakeRefines(docs: Docs, nonce: string, now: int)
    ensures var (docs', answer) := Take(docs, nonce, now, Done);
            && answer == (if nonce in Live(docs, now) then Some(Live(docs, now)[nonce].txID) else None)
            && Live(docs', now) == Live(docs, now) - {nonce}
  {
  }

  // Setting a nonce says false exactly when a document is stored, even one that only awaits its purge.
  lemma PutRefines(docs: Docs, nonce: string, txID: TxID, expiration: int, now: int)
    requires expiration >= 0
    ensures var (docs', answer) := Put(docs, nonce, NonceDoc(txID, now + expiration), Done);
            && (answer == Some(true) <==> nonce !in docs)
            && (answer == Some(true) ==> Live(docs', now) == Live(docs, now)[nonce := NonceDoc(txID, now + expiration)])
            && (answer == Some(false) ==> docs' == docs)
            && (answer == Some(false) && nonce !in Live(docs, now) ==> docs[nonce].expireAt < now)
  {
  }

  // A failed call gives no answer; it changes what it was asked to change, or nothing.
  lemma FailuresGiveNoAnswer(docs: Docs, nonce: string, doc: NonceDoc, now: int, outcome: WriteOutcome)
    requires outcome != Done
    ensures Take(docs, nonce, now, outcome) == (if outcome == FailedApplied then docs - {nonce} else docs, None)
    ensures Put(docs, nonce, doc, outcome)
            == (if outcome == FailedApplied && nonce !in docs then docs[nonce := doc] else docs, None)
  {
  }

  // Time only takes unexpired nonces away.
  lemma LiveLater(docs: Docs, now: int, later: int)
    requires now <= later
    ensures Live(docs, later) == Live(Live(docs, now), later)
  {
  }

  // ---- Two stores driven alike, purged differently ----

  datatype PairOp =
    | Tick(elapsed: nat)
    | TakeOp(nonce: string, outcome: WriteOutcome)
    | PutOp(nonce: string, txID: TxID, expiration: int, outcome: WriteOutcome)
    | PurgeLeft(nonces: set<string>)
    | PurgeRight(nonces: set<string>)

  // The documents, what consuming answered, what setting answered, and whether setting inserted a document.
  datatype Side = Side(docs: Docs, taken: seq<Option<TxID>>, put: seq<Option<bool>>, inserted: seq<bool>)

  datatype Pair = Pair(left: Side, right: Side, now: int)

  // A purge drops those of the chosen documents that have expired.
  function PurgeExpired(docs: Docs, nonces: set<string>, now: int): Docs {
    Purge(docs, set nonce | nonce in nonces && nonce in docs && docs[nonce].expireAt < now)
  }

  predicate Inserts(docs: Docs, nonce: string, outcome: WriteOutcome) {
    nonce !in docs && outcome.Applied()
  }

  function Drive(side: Side, op: PairOp, now: int): Side
    requires op.TakeOp? || op.PutOp?
  {
    match op
    case TakeOp(nonce, outcome) =>
      var (docs', answer) := Take(side.docs, nonce, now, outcome);
      side.(docs := docs', taken := side.taken + [answer])
    case PutOp(nonce, txID, expiration, outcome) =>
      var (docs', answer) := Put(side.docs, nonce, NonceDoc(txID, now + expiration), outcome);
      side.(docs := docs', put := side.put + [answer],
            inserted := side.inserted + [Inserts(side.docs, nonce, outcome)])
  }

  function NextPair(p: Pair, op: PairOp): Pair {
    match op
    case Tick(elapsed) => p.(now := p.now + elapsed)
    case PurgeLeft(nonces) => p.(left := p.left.(docs := PurgeExpired(p.left.docs, nonces, p.now)))
    case PurgeRight(nonces) => p.(right := p.right.(docs := PurgeExpired(p.right.docs, nonces, p.now)))
    case _ => p.(left := Drive(p.left, op, p.now), right := Drive(p.right, op, p.now))
  }

  function RunPair(docs: Docs, now: int, ops: seq<PairOp>): Pair {
    if ops == [] then Pair(Side(docs, [], [], []), Side(docs, [], [], []), now)
    else NextPair(RunPair(docs, now, ops[..|ops| - 1]), ops[|ops| - 1])
  }

  predicate Agree(p: Pair) {
    Live(p.left.docs, p.now) == Live(p.right.docs, p.now) && p.left.taken == p.right.taken && p.left.put == p.right.put
  }

  // Consuming, also when the store fails, depends on the unexpired nonces alone.
  lemma TakeAgrees(left: Docs, right: Docs, nonce: string, now: int, outcome: WriteOutcome)
    requires Live(left, now) == Live(right, now)
    ensures Take(left, nonce, now, outcome).1 == Take(right, nonce, now, outcome).1
    ensures Live(Take(left, nonce, now, outcome).0, now) == Live(Take(right, nonce, now, outcome).0, now)
  {
    TakeRefines(left, nonce, now);
    TakeRefines(right, nonce, now);
    assert Live(left - {nonce}, now) == Live(left, now) - {nonce};
    assert Live(right - {nonce}, now) == Live(right, now) - {nonce};
  }

  lemma PutAgrees(left: Docs, right: Docs, nonce: string, doc: NonceDoc, now: int, outcome: WriteOutcome)
    requires Live(left, now) == Live(right, now)
    requires Inserts(left, nonce, outcome) == Inserts(right, nonce, outcome)
    ensures Put(left, nonce, doc, outcome).1 == Put(right, nonce, doc, outcome).1
    ensures Live(Put(left, nonce, doc, outcome).0, now) == Live(Put(right, nonce, doc, outcome).0, now)
  {
    if Inserts(left, nonce, outcome) {
      PutLive(left, nonce, doc, now);
      PutLive(right, nonce, doc, now);
    }
  }

  lemma PutOpAgrees(p: Pair, op: PairOp)
    requires Agree(p) && op.PutOp? && p.left.inserted == p.right.inserted
    requires NextPair(p, op).left.inserted == NextPair(p, op).right.inserted
    ensures Agree(NextPair(p, op))
  {
    var p', n := NextPair(p, op), |p.left.inserted|;
    assert p'.left.inserted[n] == p'.right.inserted[n];
    PutAgrees(p.left.docs, p.right.docs, op.nonce, NonceDoc(op.txID, p.now + op.expiration), p.now, op.outcome);
  }

  lemma NextPairAgrees(p: Pair, op: PairOp)
    requires Agree(p) && p.left.inserted == p.right.inserted
    requires NextPair(p, op).left.inserted == NextPair(p, op).right.inserted
    ensures Agree(NextPair(p, op))
  {
    match op
    case Tick(elapsed) =>
      LiveLater(p.left.docs, p.now, p.now + elapsed);
      LiveLater(p.right.docs, p.now, p.now + elapsed);
    case TakeOp(nonce, outcome) =>
      TakeAgrees(p.left.docs, p.right.docs, nonce, p.now, outcome);
    case PutOp(_, _, _, _) =>
      PutOpAgrees(p, op);
    case PurgeLeft(nonces) =>
    case PurgeRight(nonces) =>
  }

  lemma PutLive(docs: Docs, nonce: string, doc: NonceDoc, now: int)
    requires nonce !in docs
    ensures Live(docs[nonce := doc], now)
            == if doc.expireAt >= now then Live(docs, now)[nonce := doc] else Live(docs, now)
  {
  }

  lemma InsertedGrows(p: Pair, op: PairOp)
    requires |p.left.inserted| == |p.right.inserted|
    ensures |NextPair(p, op).left.inserted| == |NextPair(p, op).right.inserted|
    ensures NextPair(p, op).left.inserted == NextPair(p, op).right.inserted ==> p.left.inserted == p.right.inserted
  {
    var p' := NextPair(p, op);
    if op.PutOp? && p'.left.inserted == p'.right.inserted {
      assert p.left.inserted == p'.left.inserted[..|p.left.inserted|];
      assert p.right.inserted == p'.right.inserted[..|p.right.inserted|];
    }
  }

  lemma {:induction false} InsertedMatches(docs: Docs, now: int, ops: seq<PairOp>)
    ensures |RunPair(docs, now, ops).left.inserted| == |RunPair(docs, now, ops).right.inserted|
  {
    if ops != [] {
      InsertedMatches(docs, now, ops[..|ops| - 1]);
      InsertedGrows(RunPair(docs, now, ops[..|ops| - 1]), ops[|ops| - 1]);
    }
  }

  // Under the same clock, the same calls and the same failures, when the purges happen makes no difference to any
  // answer, as long as each call to set a nonce inserted a document in both stores or in neither.
  lemma {:induction false} PurgeTimingIrrelevant(docs: Docs, now: int, ops: seq<PairOp>)
    requires RunPair(docs, now, ops).left.inserted == RunPair(docs, now, ops).right.inserted
    ensures Agree(RunPair(docs, now, ops))
  {
    if ops != [] {
      var init, op := ops[..|ops| - 1], ops[|ops| - 1];
      InsertedMatches(docs, now, init);
      InsertedGrows(RunPair(docs, now, init), op);
      PurgeTimingIrrelevant(docs, now, init);
      NextPairAgrees(RunPair(docs, now, init), op);
    }
  }

  // A late purge shows only in this way: the store that still has the expired document refuses the nonce.
  lemma LatePurgeOnlyRefuses(p: Pair, nonce: string, doc: NonceDoc, outcome: WriteOutcome)
    requires Agree(p) && !Inserts(p.left.docs, nonce, outcome) && Inserts(p.right.docs, nonce, outcome)
    ensures nonce in p.left.docs && p.left.docs[nonce].expireAt < p.now
    ensures Put(p.left.docs, nonce, doc, outcome).0 == p.left.docs
    ensures outcome == Done ==> Put(p.left.docs, nonce, doc, outcome).1 == Some(false)
    ensures outcome == Done ==> Put(p.right.docs, nonce, doc, outcome).1 == Some(true)
  {
    assert nonce !in Live(p.right.docs, p.now);
    assert nonce !in Live(p.left.docs, p.now);
  }
}
