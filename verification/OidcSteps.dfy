/**
 OIDC4VP under any number of concurrent requests: the store operations of CreateTx and of
 VerifyOIDCVerifiablePresentation as atomic steps, interleaved in any way, under a clock that moves on, with
 failing reads and writes and with purges at any moment.
 */
module OidcSteps {
  import opened Wrappers
  import opened NonceStores
  import opened OidcVp

  datatype Call = Call(txID: TxID, nonce: string, signer: string, data: PresentationData)

  // What a request knows about the nonce it consumed.
  datatype Consumption = Consumption(call: Call, doc: NonceDoc, at: int)

  datatype Pc =
    | Outside
    | Trying(txID: TxID, left: nat)                                // CreateTx: attempts left to set a nonce
    | Consumed(txID: TxID, use: Consumption)                        // Verify: about to read the transaction
    | Fetched(txID: TxID, use: Consumption, tx: Transaction)        // Verify: nonce accepted, checks to come
    | Passed(txID: TxID, use: Consumption, tx: Transaction, lib: Libraries, claims: Claims) // about to store

  datatype Stored = Stored(txID: TxID, use: Consumption, tx: Transaction, lib: Libraries, claims: Claims)

  datatype System = System(txs: map<TxID, Transaction>, nonces: Docs, now: int, pcs: map<nat, Pc>,
                           // what happened so far: the nonces ever set, and the claims ever stored
                           issued: seq<(string, TxID)>, stores: seq<Stored>)
  {
    function PcOf(t: nat): Pc {
      if t in pcs then pcs[t] else Outside
    }

    function Goto(t: nat, pc: Pc): System {
      this.(pcs := pcs[t := pc])
    }
  }

  const EMPTY_SYSTEM := System(map[], map[], 1, map[], [], [])

  datatype Step =
    | Create(t: nat, newID: TxID, profileID: string, definition: string, outcome: WriteOutcome)
    | TryNonce(t: nat, candidate: Option<string>, expiration: int, outcome: WriteOutcome)
    | Consume(t: nat, call: Call, outcome: WriteOutcome)
    | Fetch(t: nat, fails: bool)
    | Check(t: nat, lib: Libraries)
    | Store(t: nat, outcome: WriteOutcome)
    | Tick(elapsed: nat)
    | Drop(nonces: set<string>)

  // ---- The atomic steps; a thread that cannot take one does nothing ----

  // CreateTx: insert the transaction under the ID the database picks.
  function DoCreate(s: System, t: nat, newID: TxID, tx: Transaction, outcome: WriteOutcome): System {
    if s.PcOf(t) != Outside || newID in s.txs || !outcome.Applied() then s
    else
      var s1 := s.(txs := s.txs[newID := tx]);
      if outcome == Done then s1.Goto(t, Trying(newID, MAX_RETRIES)) else s1
  }

  // One attempt of tryCreateTxNonce.
  function DoTryNonce(s: System, t: nat, candidate: Option<string>, expiration: int, outcome: WriteOutcome): System {
    var pc := s.PcOf(t);
    if !pc.Trying? || pc.left == 0 then s
    else if candidate.None? then s.Goto(t, Outside)
    else
      var (nonces', isSet) := Put(s.nonces, candidate.value, NonceDoc(pc.txID, s.now + expiration), outcome);
      var s1 := s.(nonces := nonces',
                   issued := if nonces' != s.nonces then s.issued + [(candidate.value, pc.txID)] else s.issued);
      s1.Goto(t, if isSet == Some(false) && pc.left > 1 then Trying(pc.txID, pc.left - 1) else Outside)
  }

  // GetByOneTimeToken, first half: consume the nonce.
  function DoConsume(s: System, t: nat, call: Call, outcome: WriteOutcome): System {
    if s.PcOf(t) != Outside then s
    else
      var (nonces', taken) := Take(s.nonces, call.nonce, s.now, outcome);
      var s1 := s.(nonces := nonces');
      if taken.None? then s1
      else s1.Goto(t, Consumed(taken.value, Consumption(call, s.nonces[call.nonce], s.now)))
  }

  // Second half: read the transaction, and compare it with the one asked for.
  function DoFetch(s: System, t: nat, fails: bool): System {
    var pc := s.PcOf(t);
    if !pc.Consumed? then s
    else if fails || pc.txID !in s.txs || pc.txID != pc.use.call.txID then s.Goto(t, Outside)
    else s.Goto(t, Fetched(pc.txID, pc.use, s.txs[pc.txID]))
  }

  // Everything between reading the transaction and storing the claims.
  ghost function DoCheck(s: System, t: nat, lib: Libraries): System {
    var pc := s.PcOf(t);
    if !pc.Fetched? then s
    else
      var claims := Gate(lib, pc.tx, pc.use.call.data, pc.use.call.signer);
      s.Goto(t, if claims.None? then Outside else Passed(pc.txID, pc.use, pc.tx, lib, claims.value))
  }

  // StoreReceivedClaims.
  ghost function DoStore(s: System, t: nat, outcome: WriteOutcome): System {
    var pc := s.PcOf(t);
    if !pc.Passed? then s
    else if !outcome.Applied() || pc.txID !in s.txs then s.Goto(t, Outside)
    else s.Goto(t, Outside).(
           txs := s.txs[pc.txID := s.txs[pc.txID].(received := Some(pc.claims))],
           stores := s.stores + [Stored(pc.txID, pc.use, pc.tx, pc.lib, pc.claims)])
  }

  function DoTick(s: System, elapsed: nat): System {
    s.(now := s.now + elapsed)
  }

  // The database purges some expired nonces.
  function DoDrop(s: System, nonces: set<string>): System {
    s.(nonces := PurgeExpired(s.nonces, nonces, s.now))
  }

  ghost function Next(s: System, step: Step): System {
    match step
    case Create(t, newID, profileID, definition, outcome) =>
      DoCreate(s, t, newID, Transaction(profileID, definition, None), outcome)
    case TryNonce(t, candidate, expiration, outcome) => DoTryNonce(s, t, candidate, expiration, outcome)
    case Consume(t, call, outcome) => DoConsume(s, t, call, outcome)
    case Fetch(t, fails) => DoFetch(s, t, fails)
    case Check(t, lib) => DoCheck(s, t, lib)
    case Store(t, outcome) => DoStore(s, t, outcome)
    case Tick(elapsed) => DoTick(s, elapsed)
    case Drop(nonces) => DoDrop(s, nonces)
  }

  ghost function Run(steps: seq<Step>): System {
    if steps == [] then EMPTY_SYSTEM else Next(Run(steps[..|steps| - 1]), steps[|steps| - 1])
  }

  // ---- Each transaction has one right to be completed, and it is in one place ----

  // The places it can be: with a thread, in the nonce store, or used up by stored claims.
  datatype Bearer = AtThread(t: nat) | AtNonce(nonce: string) | AtStore(i: nat)

  ghost predicate Bears(s: System, b: Bearer, txID: TxID) {
    match b
    case AtThread(t) => s.PcOf(t) != Outside && s.PcOf(t).txID == txID
    case AtNonce(nonce) => nonce in s.nonces && s.nonces[nonce].txID == txID
    case AtStore(i) => i < |s.stores| && s.stores[i].txID == txID
  }

  ghost predicate OneBearer(s: System) {
    && (forall b1, b2, txID :: Bears(s, b1, txID) && Bears(s, b2, txID) ==> b1 == b2)
    && (forall b, txID :: Bears(s, b, txID) ==> txID in s.txs)
  }

  // A step that hands on no right and makes none.
  lemma DropKeeps(s: System, s': System)
    requires OneBearer(s) && s.txs.Keys <= s'.txs.Keys
    requires forall b, txID :: Bears(s', b, txID) ==> Bears(s, b, txID)
    ensures OneBearer(s')
  {
  }

  // A step that moves one right from one place to another.
  lemma MoveKeeps(s: System, s': System, txID: TxID, from: Bearer, to: Bearer)
    requires OneBearer(s) && s.txs.Keys <= s'.txs.Keys && Bears(s, from, txID)
    requires forall b, id :: Bears(s', b, id) ==> (b == to && id == txID) || (b != from && Bears(s, b, id))
    ensures OneBearer(s')
  {
  }

  // A step that makes a right for a new transaction.
  lemma MakeKeeps(s: System, s': System, txID: TxID, at: Bearer)
    requires OneBearer(s) && txID !in s.txs && s.txs.Keys + {txID} <= s'.txs.Keys
    requires forall b, id :: Bears(s', b, id) ==> (b == at && id == txID) || Bears(s, b, id)
    ensures OneBearer(s')
  {
  }

  // ---- Nonces are set once per transaction ----

  ghost predicate IssuedOnce(s: System) {
    && (forall i, j :: 0 <= i < j < |s.issued| ==> s.issued[i].1 != s.issued[j].1)
    && (forall i :: 0 <= i < |s.issued| ==> s.issued[i].1 in s.txs)
    && (forall t: nat, i :: s.PcOf(t).Trying? && 0 <= i < |s.issued| ==> s.issued[i].1 != s.PcOf(t).txID)
    && (forall nonce :: nonce in s.nonces ==> (nonce, s.nonces[nonce].txID) in s.issued)
  }

  // ---- The evidence behind a request's progress ----

  // The nonce was set for this transaction, was consumed unexpired, and named the transaction the caller asked for.
  ghost predicate Accepted(s: System, txID: TxID, use: Consumption) {
    Honoured(s, txID, use) && use.call.txID == txID
  }

  ghost predicate Honoured(s: System, txID: TxID, use: Consumption) {
    use.doc.txID == txID && use.at <= use.doc.expireAt && use.at <= s.now && (use.call.nonce, txID) in s.issued
  }

  ghost predicate Progress(s: System, pc: Pc) {
    match pc
    case Outside => true
    case Trying(_, left) => 1 <= left <= MAX_RETRIES
    case Consumed(txID, use) => Honoured(s, txID, use)
    case Fetched(txID, use, tx) => Accepted(s, txID, use) && Same(s, txID, tx)
    case Passed(txID, use, tx, lib, claims) =>
      Accepted(s, txID, use) && Same(s, txID, tx) && Gate(lib, tx, use.call.data, use.call.signer) == Some(claims)
  }

  // The transaction as it was created, whatever has been received since.
  ghost predicate Same(s: System, txID: TxID, tx: Transaction) {
    && txID in s.txs
    && s.txs[txID].profileID == tx.profileID && s.txs[txID].definition == tx.definition
  }

  // Everything that must have happened before these claims were stored.
  ghost predicate Admissible(s: System, e: Stored) {
    && Accepted(s, e.txID, e.use)
    && Same(s, e.txID, e.tx)
    && Gate(e.lib, e.tx, e.use.call.data, e.use.call.signer) == Some(e.claims)
    && s.txs[e.txID].received == Some(e.claims)
  }

  ghost predicate Evidence(s: System) {
    && (forall t: nat :: Progress(s, s.PcOf(t)))
    && (forall i :: 0 <= i < |s.stores| ==> Admissible(s, s.stores[i]))
    && (forall txID :: txID in s.txs && s.txs[txID].received.Some? ==>
          exists i :: 0 <= i < |s.stores| && s.stores[i].txID == txID)
  }

  ghost predicate Inv(s: System) {
    OneBearer(s) && IssuedOnce(s) && Evidence(s)
  }

  lemma OthersStay(s: System, s': System, t: nat, pc: Pc)
    requires s'.pcs == s.pcs[t := pc]
    ensures s'.PcOf(t) == pc
    ensures forall u: nat :: u != t ==> s'.PcOf(u) == s.PcOf(u)
  {
  }

  // Evidence outlives any step that forgets nothing and stores nothing.
  ghost predicate Extends(s: System, s': System) {
    && s.now <= s'.now && s.issued <= s'.issued && s.stores == s'.stores
    && (forall id :: id in s.txs ==> id in s'.txs && s'.txs[id] == s.txs[id])
    && (forall id :: id in s'.txs && id !in s.txs ==> s'.txs[id].received.None?)
  }

  lemma ProgressStays(s: System, s': System, pc: Pc)
    requires Progress(s, pc) && Extends(s, s')
    ensures Progress(s', pc)
  {
    match pc
    case Outside =>
    case Trying(_, _) =>
    case Consumed(txID, use) =>
      assert (use.call.nonce, txID) in s'.issued;
    case Fetched(txID, use, _) =>
      assert (use.call.nonce, txID) in s'.issued;
    case Passed(txID, use, _, _, _) =>
      assert (use.call.nonce, txID) in s'.issued;
  }

  lemma EvidenceStays(s: System, s': System, t: nat)
    requires Evidence(s) && Extends(s, s')
    requires forall u: nat :: u != t ==> s'.PcOf(u) == s.PcOf(u)
    requires Progress(s', s'.PcOf(t))
    ensures Evidence(s')
  {
    forall u: nat ensures Progress(s', s'.PcOf(u)) {
      if u != t {
        assert Progress(s, s.PcOf(u));
        ProgressStays(s, s', s.PcOf(u));
      }
    }
    forall i | 0 <= i < |s'.stores| ensures Admissible(s', s'.stores[i]) {
      var e := s.stores[i];
      assert Admissible(s, e);
      assert (e.use.call.nonce, e.txID) in s'.issued;
    }
  }

  lemma CreateKeeps(s: System, t: nat, newID: TxID, tx: Transaction, outcome: WriteOutcome)
    requires Inv(s) && tx.received.None?
    ensures Inv(DoCreate(s, t, newID, tx, outcome))
  {
    var s' := DoCreate(s, t, newID, tx, outcome);
    if s' != s {
      assert forall u: nat :: u != t ==> s'.PcOf(u) == s.PcOf(u);
      EvidenceStays(s, s', t);
      CreateIssues(s, s', t, newID);
      if outcome == Done {
        MakeKeeps(s, s', newID, AtThread(t));
      } else {
        DropKeeps(s, s');
      }
    }
  }

  lemma CreateIssues(s: System, s': System, t: nat, newID: TxID)
    requires IssuedOnce(s) && newID !in s.txs && s.txs.Keys <= s'.txs.Keys
    requires s'.nonces == s.nonces && s'.issued == s.issued
    requires forall u: nat :: u != t ==> s'.PcOf(u) == s.PcOf(u)
    requires s'.PcOf(t).Trying? ==> s'.PcOf(t).txID == newID
    ensures IssuedOnce(s')
  {
  }

  lemma IssuedStays(s: System, s': System)
    requires IssuedOnce(s) && s.txs.Keys <= s'.txs.Keys && s'.issued == s.issued
    requires forall nonce :: nonce in s'.nonces ==> nonce in s.nonces && s'.nonces[nonce] == s.nonces[nonce]
    requires forall u: nat :: s'.PcOf(u).Trying? ==> s.PcOf(u).Trying? && s.PcOf(u).txID == s'.PcOf(u).txID
    ensures IssuedOnce(s')
  {
  }

  lemma TryNonceKeeps(s: System, t: nat, candidate: Option<string>, expiration: int, outcome: WriteOutcome)
    requires Inv(s)
    ensures Inv(DoTryNonce(s, t, candidate, expiration, outcome))
  {
    var s' := DoTryNonce(s, t, candidate, expiration, outcome);
    if s' != s {
      OthersStay(s, s', t, s'.PcOf(t));
      assert Progress(s, s.PcOf(t));
      EvidenceStays(s, s', t);
      if s'.nonces != s.nonces {
        NonceSet(s, s', t, candidate.value);
      } else {
        DropKeeps(s, s');
        IssuedStays(s, s');
      }
    }
  }

  lemma NonceSet(s: System, s': System, t: nat, nonce: string)
    requires Inv(s) && s.PcOf(t).Trying? && s'.PcOf(t) == Outside && nonce !in s.nonces
    requires forall u: nat :: u != t ==> s'.PcOf(u) == s.PcOf(u)
    requires s'.txs == s.txs && s'.stores == s.stores && s'.issued == s.issued + [(nonce, s.PcOf(t).txID)]
    requires nonce in s'.nonces && s'.nonces == s.nonces[nonce := s'.nonces[nonce]]
    requires s'.nonces[nonce].txID == s.PcOf(t).txID
    ensures OneBearer(s') && IssuedOnce(s')
  {
    assert Bears(s, AtThread(t), s.PcOf(t).txID);
    MoveKeeps(s, s', s.PcOf(t).txID, AtThread(t), AtNonce(nonce));
    NonceIsNew(s, s', t, s.PcOf(t).txID, nonce);
  }

  lemma NonceIsNew(s: System, s': System, t: nat, txID: TxID, nonce: string)
    requires Inv(s) && s.PcOf(t).Trying? && s.PcOf(t).txID == txID && s'.PcOf(t) == Outside
    requires forall u: nat :: u != t ==> s'.PcOf(u) == s.PcOf(u)
    requires s'.issued == s.issued + [(nonce, txID)] && s'.txs == s.txs
    requires nonce in s'.nonces && s'.nonces[nonce].txID == txID
    requires forall n :: n in s'.nonces && n != nonce ==> n in s.nonces && s'.nonces[n] == s.nonces[n]
    ensures IssuedOnce(s')
  {
    assert Bears(s, AtThread(t), txID);
    forall u: nat, i | s'.PcOf(u).Trying? && 0 <= i < |s'.issued| ensures s'.issued[i].1 != s'.PcOf(u).txID {
      assert !Bears(s, AtThread(u), txID);
    }
    assert s'.issued[|s.issued|] == (nonce, txID);
    forall n | n in s'.nonces ensures (n, s'.nonces[n].txID) in s'.issued {
      if n != nonce { assert (n, s.nonces[n].txID) in s.issued; }
    }
  }

  lemma ConsumeKeeps(s: System, t: nat, call: Call, outcome: WriteOutcome)
    requires Inv(s)
    ensures Inv(DoConsume(s, t, call, outcome))
  {
    var s' := DoConsume(s, t, call, outcome);
    if s.PcOf(t) == Outside {
      if s'.PcOf(t) == Outside {
        assert forall u: nat :: s'.PcOf(u) == s.PcOf(u);
        EvidenceStays(s, s', t);
        DropKeeps(s, s');
        IssuedStays(s, s');
      } else {
        ConsumedKeeps(s, s', t, call);
      }
    }
  }

  lemma ConsumedKeeps(s: System, s': System, t: nat, call: Call)
    requires Inv(s) && s.PcOf(t) == Outside
    requires call.nonce in s.nonces && s.nonces[call.nonce].expireAt >= s.now
    requires s' == s.(nonces := s.nonces - {call.nonce}).Goto(t, Consumed(s.nonces[call.nonce].txID,
                      Consumption(call, s.nonces[call.nonce], s.now)))
    ensures Inv(s')
  {
    var txID := s.nonces[call.nonce].txID;
    OthersStay(s, s', t, s'.PcOf(t));
    assert (call.nonce, txID) in s.issued;
    EvidenceStays(s, s', t);
    IssuedStays(s, s');
    assert Bears(s, AtNonce(call.nonce), txID);
    MoveKeeps(s, s', txID, AtNonce(call.nonce), AtThread(t));
  }

  // A request that only reads and decides.
  lemma LocalKeeps(s: System, s': System, t: nat)
    requires Inv(s) && s' == s.Goto(t, s'.PcOf(t)) && Progress(s', s'.PcOf(t))
    requires s'.PcOf(t) != Outside ==>
               && s.PcOf(t) != Outside && !s'.PcOf(t).Trying?
               && s'.PcOf(t).txID == s.PcOf(t).txID
    ensures Inv(s')
  {
    OthersStay(s, s', t, s'.PcOf(t));
    EvidenceStays(s, s', t);
    DropKeeps(s, s');
    IssuedStays(s, s');
  }

  lemma FetchKeeps(s: System, t: nat, fails: bool)
    requires Inv(s)
    ensures Inv(DoFetch(s, t, fails))
  {
    assert Progress(s, s.PcOf(t));
    if s.PcOf(t).Consumed? { LocalKeeps(s, DoFetch(s, t, fails), t); }
  }

  lemma CheckKeeps(s: System, t: nat, lib: Libraries)
    requires Inv(s)
    ensures Inv(DoCheck(s, t, lib))
  {
    assert Progress(s, s.PcOf(t));
    if s.PcOf(t).Fetched? { LocalKeeps(s, DoCheck(s, t, lib), t); }
  }

  lemma StoreKeeps(s: System, t: nat, outcome: WriteOutcome)
    requires Inv(s)
    ensures Inv(DoStore(s, t, outcome))
  {
    var s' := DoStore(s, t, outcome);
    var pc := s.PcOf(t);
    assert Progress(s, pc);
    if !pc.Passed? {
    } else if s'.stores == s.stores {
      LocalKeeps(s, s', t);
    } else {
      OthersStay(s, s', t, Outside);
      assert Bears(s, AtThread(t), pc.txID);
      MoveKeeps(s, s', pc.txID, AtThread(t), AtStore(|s.stores|));
      IssuedStays(s, s');
      StoredEvidence(s, s', t);
    }
  }

  // The step that stores a request's claims.
  ghost predicate Stores(s: System, s': System, t: nat) {
    var pc := s.PcOf(t);
    && pc.Passed? && pc.txID in s.txs
    && s'.PcOf(t) == Outside
    && (forall u: nat :: u != t ==> s'.PcOf(u) == s.PcOf(u))
    && s'.txs == s.txs[pc.txID := s.txs[pc.txID].(received := Some(pc.claims))]
    && s'.stores == s.stores + [Stored(pc.txID, pc.use, pc.tx, pc.lib, pc.claims)]
    && s'.now == s.now && s'.issued == s.issued
  }

  lemma StoredEvidence(s: System, s': System, t: nat)
    requires Inv(s) && Stores(s, s', t)
    ensures Evidence(s')
  {
    forall u: nat ensures Progress(s', s'.PcOf(u)) {
      assert Progress(s, s.PcOf(u));
    }
    forall i | 0 <= i < |s'.stores| ensures Admissible(s', s'.stores[i]) {
      StoredAdmissible(s, s', t, i);
    }
    StoredReceived(s, s', t);
  }

  lemma StoredAdmissible(s: System, s': System, t: nat, i: nat)
    requires Inv(s) && Stores(s, s', t) && i < |s'.stores|
    ensures Admissible(s', s'.stores[i])
  {
    assert Progress(s, s.PcOf(t));
    assert Bears(s, AtThread(t), s.PcOf(t).txID);
    if i < |s.stores| {
      assert Admissible(s, s.stores[i]);
      assert !Bears(s, AtStore(i), s.PcOf(t).txID);
    }
  }

  lemma StoredReceived(s: System, s': System, t: nat)
    requires Inv(s) && Stores(s, s', t)
    ensures forall txID :: txID in s'.txs && s'.txs[txID].received.Some? ==>
              exists i :: 0 <= i < |s'.stores| && s'.stores[i].txID == txID
  {
    forall txID | txID in s'.txs && s'.txs[txID].received.Some?
      ensures exists i :: 0 <= i < |s'.stores| && s'.stores[i].txID == txID
    {
      if txID == s.PcOf(t).txID {
        assert s'.stores[|s.stores|].txID == txID;
      } else {
        var i :| 0 <= i < |s.stores| && s.stores[i].txID == txID;
        assert s'.stores[i].txID == txID;
      }
    }
  }

  // Time passes, or expired nonces are purged.
  lemma ClockKeeps(s: System, s': System)
    requires Inv(s) && s'.now >= s.now && s' == s.(now := s'.now, nonces := s'.nonces)
    requires forall nonce :: nonce in s'.nonces ==> nonce in s.nonces && s'.nonces[nonce] == s.nonces[nonce]
    ensures Inv(s')
  {
    assert forall u: nat :: s'.PcOf(u) == s.PcOf(u);
    ProgressStays(s, s', s.PcOf(0));
    EvidenceStays(s, s', 0);
    DropKeeps(s, s');
    IssuedStays(s, s');
  }

  lemma TickKeeps(s: System, elapsed: nat)
    requires Inv(s)
    ensures Inv(DoTick(s, elapsed))
  {
    ClockKeeps(s, DoTick(s, elapsed));
  }

  lemma PurgeKeeps(s: System, nonces: set<string>)
    requires Inv(s)
    ensures Inv(DoDrop(s, nonces))
  {
    ClockKeeps(s, DoDrop(s, nonces));
  }

  lemma NextKeepsInv(s: System, step: Step)
    requires Inv(s)
    ensures Inv(Next(s, step))
  {
    match step
    case Create(t, newID, profileID, definition, outcome) =>
      CreateKeeps(s, t, newID, Transaction(profileID, definition, None), outcome);
    case TryNonce(t, candidate, expiration, outcome) => TryNonceKeeps(s, t, candidate, expiration, outcome);
    case Consume(t, call, outcome) => ConsumeKeeps(s, t, call, outcome);
    case Fetch(t, fails) => FetchKeeps(s, t, fails);
    case Check(t, lib) => CheckKeeps(s, t, lib);
    case Store(t, outcome) => StoreKeeps(s, t, outcome);
    case Tick(elapsed) => TickKeeps(s, elapsed);
    case Drop(nonces) => PurgeKeeps(s, nonces);
  }

  lemma {:induction false} RunKeepsInv(steps: seq<Step>)
    ensures Inv(Run(steps))
  {
    if steps != [] {
      RunKeepsInv(steps[..|steps| - 1]);
      NextKeepsInv(Run(steps[..|steps| - 1]), steps[|steps| - 1]);
    }
  }

  // ---- What every interleaving keeps ----

  // At most one nonce is ever set for a transaction.
  lemma OneNoncePerTransaction(steps: seq<Step>, i: nat, j: nat)
    requires i < j < |Run(steps).issued|
    ensures Run(steps).issued[i].1 != Run(steps).issued[j].1
  {
    RunKeepsInv(steps);
  }

  // At most one request at a time is past the nonce of a transaction, and none once a nonce for it is stored.
  lemma OneRequestPerTransaction(steps: seq<Step>, t: nat)
    requires Run(steps).PcOf(t) != Outside
    ensures var s := Run(steps);
            var txID := s.PcOf(t).txID;
            && (forall u: nat :: u != t && s.PcOf(u) != Outside ==> s.PcOf(u).txID != txID)
            && (forall nonce :: nonce in s.nonces ==> s.nonces[nonce].txID != txID)
            && (forall i :: 0 <= i < |s.stores| ==> s.stores[i].txID != txID)
  {
    RunKeepsInv(steps);
    var s := Run(steps);
    var txID := s.PcOf(t).txID;
    assert Bears(s, AtThread(t), txID);
    forall u: nat | u != t && s.PcOf(u) != Outside ensures s.PcOf(u).txID != txID {
      assert !Bears(s, AtThread(u), txID);
    }
    forall nonce | nonce in s.nonces ensures s.nonces[nonce].txID != txID {
      assert !Bears(s, AtNonce(nonce), txID);
    }
    forall i | 0 <= i < |s.stores| ensures s.stores[i].txID != txID {
      assert !Bears(s, AtStore(i), txID);
    }
  }

  // Claims are stored at most once per transaction.
  lemma ClaimsStoredOnce(steps: seq<Step>, i: nat, j: nat)
    requires i < j < |Run(steps).stores|
    ensures Run(steps).stores[i].txID != Run(steps).stores[j].txID
  {
    RunKeepsInv(steps);
    assert Bears(Run(steps), AtStore(i), Run(steps).stores[i].txID);
    assert !Bears(Run(steps), AtStore(j), Run(steps).stores[i].txID);
  }

  // Claims are only ever stored by a request that consumed, before it expired, the one nonce set for that
  // transaction, asked for that transaction, and whose presentation verified without a failed check, matched
  // the definition, and, if the profile asks for it, has the signer as the subject of every credential.
  lemma OnlyAdmissibleClaims(steps: seq<Step>, i: nat)
    requires i < |Run(steps).stores|
    ensures var s, e := Run(steps), Run(steps).stores[i];
            && e.use.call.txID == e.txID == e.use.doc.txID
            && (e.use.call.nonce, e.txID) in s.issued
            && e.use.at <= e.use.doc.expireAt
            && e.txID in s.txs
            && s.txs[e.txID].profileID == e.tx.profileID && s.txs[e.txID].definition == e.tx.definition
            && (exists profile ::
                  && e.lib.profile(e.tx.profileID) == Some(profile)
                  && e.lib.verify(e.use.call.data, profile) == Some([])
                  && (profile.checkVCSubject ==>
                        forall key :: key in e.claims ==>
                          var c := e.claims[key];
                          && c.subjectID.Some?
                          && (c.jwt != "" ==> e.lib.jwtSub(c.jwt) == Some(e.use.call.signer))
                          && (c.jwt == "" ==> c.subjectID == Some(e.use.call.signer))))
            && e.lib.matching(e.tx.definition, e.use.call.data.(jwt := "")) == Some(e.claims)
  {
    RunKeepsInv(steps);
    var s, e := Run(steps), Run(steps).stores[i];
    assert Admissible(s, e);
    GateIff(e.lib, e.tx, e.use.call.data, e.use.call.signer, e.claims);
    assert e.use.call.data.(jwt := "") == PresentationData(e.use.call.data.body, "");
  }

  // What a transaction says it received is what that one request stored.
  lemma ReceivedIsWhatWasStored(steps: seq<Step>, txID: TxID)
    requires txID in Run(steps).txs
    ensures var s := Run(steps);
            s.txs[txID].received.Some? <==>
            exists i :: 0 <= i < |s.stores| && s.stores[i].txID == txID
                        && s.txs[txID].received == Some(s.stores[i].claims)
  {
    RunKeepsInv(steps);
    var s := Run(steps);
    if s.txs[txID].received.Some? {
      var i :| 0 <= i < |s.stores| && s.stores[i].txID == txID;
      assert Admissible(s, s.stores[i]);
    }
  }

  // ---- What a request achieves when nothing gets in its way ----

  // An attempt whose candidate is free sets the nonce and ends the call; one whose candidate is in use changes
  // nothing, and the call goes on while attempts are left.
  lemma AttemptedInTurn(s: System, t: nat, nonce: string, expiration: int)
    requires s.PcOf(t).Trying? && s.PcOf(t).left >= 1
    ensures var s', Trying(txID, left) := Next(s, TryNonce(t, Some(nonce), expiration, Done)), s.PcOf(t);
            && s'.txs == s.txs && s'.now == s.now
            && s'.nonces == (if nonce in s.nonces then s.nonces
                             else s.nonces[nonce := NonceDoc(txID, s.now + expiration)])
            && s'.PcOf(t) == if nonce in s.nonces && left > 1 then Trying(txID, left - 1) else Outside
  {
  }

  // A thread creates a transaction, with ten attempts for its nonce, and sets it in the first.
  lemma CreatedInTurn(s: System, t: nat, newID: TxID, profileID: string, definition: string, nonce: string,
                      expiration: int)
    requires s.PcOf(t) == Outside && newID !in s.txs && nonce !in s.nonces
    ensures var s1 := Next(s, Create(t, newID, profileID, definition, Done));
            var s2 := Next(s1, TryNonce(t, Some(nonce), expiration, Done));
            && s1.PcOf(t) == Trying(newID, 10)
            && s2.PcOf(t) == Outside && s2.now == s.now
            && s2.txs == s.txs[newID := Transaction(profileID, definition, None)]
            && s2.nonces == s.nonces[nonce := NonceDoc(newID, s.now + expiration)]
  {
  }

  // A thread redeems the nonce of a transaction and presents: the claims are stored exactly when the nonce has not
  // expired, it was asked for the transaction the nonce leads to, and the gate opens; nothing else is stored.
  lemma ServedInTurn(s: System, t: nat, call: Call, lib: Libraries)
    requires s.PcOf(t) == Outside && call.nonce in s.nonces && s.nonces[call.nonce].txID in s.txs
    ensures var s1 := Next(s, Consume(t, call, Done));
            var s2 := Next(s1, Fetch(t, false));
            var s3 := Next(s2, Check(t, lib));
            var s4 := Next(s3, Store(t, Done));
            var txID := s.nonces[call.nonce].txID;
            var claims := Gate(lib, s.txs[txID], call.data, call.signer);
            && s4.PcOf(t) == Outside && s4.nonces == s.nonces - {call.nonce}
            && s4.txs == if s.now <= s.nonces[call.nonce].expireAt && call.txID == txID && claims.Some?
                         then s.txs[txID := s.txs[txID].(received := claims)] else s.txs
  {
    ConsumedInTurn(s, t, call);
    var s1 := DoConsume(s, t, call, Done);
    if s1.PcOf(t).Consumed? {
      CheckedInTurn(s1, t, lib);
    }
  }

  lemma ConsumedInTurn(s: System, t: nat, call: Call)
    requires s.PcOf(t) == Outside && call.nonce in s.nonces
    ensures var s1, doc := DoConsume(s, t, call, Done), s.nonces[call.nonce];
            && s1.nonces == s.nonces - {call.nonce} && s1.txs == s.txs && s1.now == s.now
            && s1.PcOf(t) ==
               if s.now <= doc.expireAt then Consumed(doc.txID, Consumption(call, doc, s.now)) else Outside
  {
  }

  lemma CheckedInTurn(s: System, t: nat, lib: Libraries)
    requires s.PcOf(t).Consumed? && s.PcOf(t).txID in s.txs
    ensures var s3 := DoStore(DoCheck(DoFetch(s, t, false), t, lib), t, Done);
            var Consumed(txID, use) := s.PcOf(t);
            var claims := Gate(lib, s.txs[txID], use.call.data, use.call.signer);
            && s3.PcOf(t) == Outside && s3.nonces == s.nonces
            && s3.txs == if use.call.txID == txID && claims.Some?
                         then s.txs[txID := s.txs[txID].(received := claims)] else s.txs
  {
  }
}
