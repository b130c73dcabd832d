/**
 OIDC4VP transactions and the gate in front of their claims: pkg/service/oidc4vp/txmanager.go,
 pkg/service/oidc4vp/oidc4vp_service.go and the transaction store behind them.
 */
module OidcVp {
  import opened Wrappers
  import opened NonceStores

  const MAX_RETRIES := 10

  datatype Credential = Credential(subjectID: Option<string>, jwt: string)

  type Claims = map<string, Credential>

  datatype Transaction = Transaction(profileID: string, definition: string, received: Option<Claims>)

  datatype Profile = Profile(id: string, checkVCSubject: bool)

  // ---- The transaction store ----

  class TxStore {
    var txs: map<TxID, Transaction>

    constructor ()
      ensures txs == map[]
    {
      txs := map[];
    }

    // The database picks the ID; an insert under an ID already in use fails.
    method Create(definition: string, profileID: string, newID: TxID, outcome: WriteOutcome) returns (r: Option<TxID>)
      modifies this
      ensures r == if outcome == Done && newID !in old(txs) then Some(newID) else None
      ensures txs == if outcome.Applied() && newID !in old(txs)
                     then old(txs)[newID := Transaction(profileID, definition, None)] else old(txs)
    {
      if newID in txs {
        return None;
      }
      if outcome.Applied() {
        txs := txs[newID := Transaction(profileID, definition, None)];
      }
      r := if outcome == Done then Some(newID) else None;
    }

    method Get(txID: TxID, fails: bool) returns (r: Option<Transaction>)
      ensures r == if !fails && txID in txs then Some(txs[txID]) else None
    {
      r := if !fails && txID in txs then Some(txs[txID]) else None;
    }

    method Update(txID: TxID, received: Claims, outcome: WriteOutcome) returns (ok: bool)
      modifies this
      ensures ok <==> outcome == Done && txID in old(txs)
      ensures txs == if outcome.Applied() && txID in old(txs)
                     then old(txs)[txID := old(txs[txID]).(received := Some(received))] else old(txs)
    {
      if txID !in txs {
        return false;
      }
      if outcome.Applied() {
        txs := txs[txID := txs[txID].(received := Some(received))];
      }
      ok := outcome == Done;
    }
  }

  // ---- The transaction manager ----

  datatype TxError = CreateFailed | RandomFailed | NonceStoreFailed | RetriesExhausted | GetFailed

  // What one attempt meets: a random nonce or none, the time, and the fate of the insert.
  datatype Attempt = Attempt(candidate: Option<string>, now: int, outcome: WriteOutcome)

  class TxManager {
    const nonceStore: TxNonceStore
    const txStore: TxStore
    const interactionLiveTime: int

    constructor (nonceStore: TxNonceStore, txStore: TxStore, interactionLiveTime: int)
      ensures this.nonceStore == nonceStore && this.txStore == txStore
      ensures this.interactionLiveTime == interactionLiveTime
    {
      this.nonceStore, this.txStore, this.interactionLiveTime := nonceStore, txStore, interactionLiveTime;
    }

    // A candidate whose insert was refused because the nonce is in use.
    static predicate Refused(docs: Docs, a: Attempt) {
      a.candidate.Some? && a.candidate.value in docs && a.outcome == Done
    }

    // At most ten attempts. Success means: the nonce had no document and now maps to the transaction, nothing
    // else changed, and all candidates before it were in use. Running out means all ten were in use.
    method TryCreateTxNonce(txID: TxID, attempts: seq<Attempt>) returns (r: Result<string, TxError>, used: nat)
      requires |attempts| >= MAX_RETRIES
      modifies nonceStore
      ensures 1 <= used <= 10
      ensures forall i :: 0 <= i < used - 1 ==> Refused(old(nonceStore.docs), attempts[i])
      ensures var docs, docs', last := old(nonceStore.docs), nonceStore.docs, attempts[used - 1];
              match r
              case Ok(nonce) =>
                && last.candidate == Some(nonce) && last.outcome == Done
                && nonce !in docs && docs' == docs[nonce := NonceDoc(txID, last.now + interactionLiveTime)]
              case Err(RetriesExhausted) =>
                used == 10 && Refused(docs, last) && docs' == docs
              case Err(RandomFailed) =>
                last.candidate.None? && docs' == docs
              case Err(NonceStoreFailed) =>
                && last.candidate.Some? && last.outcome != Done
                && docs' == (if last.outcome == FailedApplied && last.candidate.value !in docs
                              then docs[last.candidate.value := NonceDoc(txID, last.now + interactionLiveTime)]
                              else docs)
              case Err(_) => false
    {
      used := 0;
      for i := 1 to MAX_RETRIES + 1
        invariant used == i - 1
        invariant nonceStore.docs == old(nonceStore.docs)
        invariant forall j :: 0 <= j < used ==> Refused(old(nonceStore.docs), attempts[j])
      {
        var a := attempts[i - 1];
        used := i;
        if a.candidate.None? {
          return Err(RandomFailed), used;
        }
        var nonce := a.candidate.value;
        var isSet := nonceStore.SetIfNotExist(nonce, txID, interactionLiveTime, a.now, a.outcome);
        if isSet.None? {
          return Err(NonceStoreFailed), used;
        }
        if isSet.value {
          return Ok(nonce), used;
        }
      }
      r := Err(RetriesExhausted);
    }

    // A transaction is handed out with the one nonce that leads to it, good for the interaction's life time from
    // when it was set. On any error at most that transaction and one such nonce are left behind.
    method CreateTx(definition: string, profileID: string, newID: TxID, create: WriteOutcome,
                    attempts: seq<Attempt>, getFails: bool)
      returns (r: Result<(Transaction, string), TxError>, ghost setAt: int)
      requires |attempts| >= MAX_RETRIES
      modifies nonceStore, txStore
      ensures r.Ok? ==>
                && r.value.0 == Transaction(profileID, definition, None)
                && r.value.1 !in old(nonceStore.docs)
                && nonceStore.docs == old(nonceStore.docs)[r.value.1 := NonceDoc(newID, setAt + interactionLiveTime)]
                && exists i :: 0 <= i < MAX_RETRIES && attempts[i].candidate == Some(r.value.1)
                               && attempts[i].now == setAt
      ensures txStore.txs == if create.Applied() && newID !in old(txStore.txs)
                             then old(txStore.txs)[newID := Transaction(profileID, definition, None)]
                             else old(txStore.txs)
      ensures r == Err(CreateFailed) <==> create != Done || newID in old(txStore.txs)
      ensures r == Err(CreateFailed) ==> nonceStore.docs == old(nonceStore.docs)
      ensures r.Ok? || r == Err(GetFailed) ==> (r.Ok? <==> !getFails)
      ensures || nonceStore.docs == old(nonceStore.docs)
              || exists nonce :: nonce !in old(nonceStore.docs)
                                 && nonceStore.docs == old(nonceStore.docs)[
                                      nonce := NonceDoc(newID, setAt + interactionLiveTime)]
    {
      setAt := 0;
      var txID := txStore.Create(definition, profileID, newID, create);
      if txID.None? {
        return Err(CreateFailed), setAt;
      }
      var nonce, used := TryCreateTxNonce(txID.value, attempts);
      setAt := attempts[used - 1].now;
      if nonce.Err? {
        return Err(nonce.error), setAt;
      }
      var tx := txStore.Get(txID.value, getFails);
      if tx.None? {
        return Err(GetFailed), setAt;
      }
      r := Ok((tx.value, nonce.value));
    }

    // A nonce handed out leads to its transaction until its life time is over, and only once.
    method CreateAndRedeem(definition: string, profileID: string, newID: TxID, attempts: seq<Attempt>,
                           now: int, later: int)
      returns (r: Result<(Transaction, string), TxError>, first: Option<(TxID, Transaction)>,
               second: Option<(TxID, Transaction)>, ghost setAt: int)
      requires |attempts| >= MAX_RETRIES && ZERO_TIME < now <= later
      modifies nonceStore, txStore
      ensures r.Ok? ==>
                && r.value.0 == Transaction(profileID, definition, None)
                && (exists i :: 0 <= i < MAX_RETRIES && attempts[i].candidate == Some(r.value.1)
                                && attempts[i].now == setAt)
                && first == (if now <= setAt + interactionLiveTime then Some((newID, r.value.0)) else None)
                && second == None
    {
      first, second := None, None;
      r, setAt := CreateTx(definition, profileID, newID, Done, attempts, false);
      if r.Ok? {
        var redeemed := GetByOneTimeToken(r.value.1, now, Done, false);
        first := redeemed.value;
        redeemed := GetByOneTimeToken(r.value.1, later, Done, false);
        second := redeemed.value;
      }
    }

    method StoreReceivedClaims(txID: TxID, claims: Claims, outcome: WriteOutcome) returns (ok: bool)
      modifies txStore
      ensures ok <==> outcome == Done && txID in old(txStore.txs)
      ensures txStore.txs == if outcome.Applied() && txID in old(txStore.txs)
                             then old(txStore.txs)[txID := old(txStore.txs[txID]).(received := Some(claims))]
                             else old(txStore.txs)
    {
      ok := txStore.Update(txID, claims, outcome);
    }

    // The transaction behind a nonce, which is gone afterwards, whatever comes of it.
    method GetByOneTimeToken(nonce: string, now: int, take: WriteOutcome, getFails: bool)
      returns (r: Result<Option<(TxID, Transaction)>, TxError>)
      requires now > ZERO_TIME
      modifies nonceStore
      ensures var (docs', taken) := Take(old(nonceStore.docs), nonce, now, take);
              && nonceStore.docs == docs'
              && r == if taken.None? then Ok(None)
                      else if getFails || taken.value !in txStore.txs then Err(GetFailed)
                      else Ok(Some((taken.value, txStore.txs[taken.value])))
    {
      var txID, valid, failed := nonceStore.GetAndDelete(nonce, now, take);
      if failed {
        return Err(NonceStoreFailed);
      }
      if !valid {
        return Ok(None);
      }
      var tx := txStore.Get(txID, getFails);
      if tx.None? {
        return Err(GetFailed);
      }
      r := Ok(Some((txID, tx.value)));
    }
  }

  // ---- The service ----

  datatype PresentationData = PresentationData(body: string, jwt: string)

  class Presentation {
    var data: PresentationData

    constructor (data: PresentationData)
      ensures this.data == data
    {
      this.data := data;
    }
  }

  datatype ProcessedVPToken = ProcessedVPToken(nonce: string, signer: string, presentation: Presentation)

  // The libraries behind the gate: profile lookup, serialization, verification with its list of failed
  // checks, matching against the definition, and reading "sub" out of a credential's JWT.
  datatype Libraries = Libraries(profile: string -> Option<Profile>,
                                 marshals: PresentationData -> bool,
                                 verify: (PresentationData, Profile) -> Option<seq<string>>,
                                 matching: (string, PresentationData) -> Option<Claims>,
                                 jwtSub: string -> Option<string>)

  // The subject a credential is about: the "sub" of its JWT if it has one, else its subject's ID; the latter
  // must be readable in both cases.
  function SubjectOf(lib: Libraries, c: Credential): Option<string> {
    if c.subjectID.None? then None
    else if c.jwt != "" then lib.jwtSub(c.jwt)
    else c.subjectID
  }

  predicate SubjectsAre(lib: Libraries, claims: Claims, signer: string) {
    forall key :: key in claims ==> SubjectOf(lib, claims[key]) == Some(signer)
  }

  // A credential is about the signer: its subject ID can be read, and the "sub" of its JWT, if it has one, names
  // the signer, or else the subject ID does.
  predicate AboutSigner(lib: Libraries, c: Credential, signer: string) {
    c.subjectID.Some? && if c.jwt != "" then lib.jwtSub(c.jwt) == Some(signer) else c.subjectID.value == signer
  }

  lemma SubjectsAreIff(lib: Libraries, claims: Claims, signer: string)
    ensures SubjectsAre(lib, claims, signer) <==> forall key :: key in claims ==> AboutSigner(lib, claims[key], signer)
  {
    if SubjectsAre(lib, claims, signer) {
      forall key | key in claims ensures AboutSigner(lib, claims[key], signer) {
        assert SubjectOf(lib, claims[key]) == Some(signer);
      }
    }
  }

  // The claims of a presentation without its JWT that match the definition, and whose subjects are the signer
  // if the profile asks for it.
  function ClaimsOf(lib: Libraries, definition: string, profile: Profile, data: PresentationData, signer: string)
    : Option<Claims>
  {
    var cleared := data.(jwt := "");
    var claims := lib.matching(definition, cleared);
    if !lib.marshals(cleared) || claims.None? || (profile.checkVCSubject && !SubjectsAre(lib, claims.value, signer))
    then None
    else claims
  }

  // Everything that is tested before claims are stored, and the claims that pass.
  function Gate(lib: Libraries, tx: Transaction, data: PresentationData, signer: string): Option<Claims> {
    var profile := lib.profile(tx.profileID);
    if profile.None? || !lib.marshals(data) || lib.verify(data, profile.value) != Some([]) then None
    else ClaimsOf(lib, tx.definition, profile.value, data, signer)
  }

  // The gate opens exactly when the profile is known, both forms of the presentation can be serialized, it
  // verifies with no failed check, it matches the definition, and, if the profile asks for it, every credential
  // that matched is about the signer.
  lemma GateIff(lib: Libraries, tx: Transaction, data: PresentationData, signer: string, claims: Claims)
    ensures Gate(lib, tx, data, signer) == Some(claims) <==>
            exists profile ::
              && lib.profile(tx.profileID) == Some(profile)
              && lib.marshals(data) && lib.marshals(PresentationData(data.body, ""))
              && lib.verify(data, profile) == Some([])
              && lib.matching(tx.definition, PresentationData(data.body, "")) == Some(claims)
              && (profile.checkVCSubject ==>
                    forall key :: key in claims ==>
                      var c := claims[key];
                      && c.subjectID.Some?
                      && (c.jwt != "" ==> lib.jwtSub(c.jwt) == Some(signer))
                      && (c.jwt == "" ==> c.subjectID == Some(signer)))
  {
    SubjectsAreIff(lib, claims, signer);
    assert data.(jwt := "") == PresentationData(data.body, "");
    var profile := lib.profile(tx.profileID);
    if profile.Some? { assert lib.profile(tx.profileID) == Some(profile.value); }
  }

  datatype VerifyError = LookupFailed | InvalidNonce | ProfileMissing | MarshalFailed | VerificationFailed
                       | ChecksFailed | MatchFailed | SubjectMismatch | StoreFailed | EventFailed

  datatype VerifyFaults = VerifyFaults(take: WriteOutcome, getFails: bool, update: WriteOutcome, publishFails: bool)

  class Service {
    const transactionManager: TxManager
    const lib: Libraries

    constructor (transactionManager: TxManager, lib: Libraries)
      ensures this.transactionManager == transactionManager && this.lib == lib
    {
      this.transactionManager, this.lib := transactionManager, lib;
    }

    // The credentials are visited in whatever order the map yields them.
    method CheckVCSubject(credentials: Claims, signer: string) returns (ok: bool)
      ensures ok <==> SubjectsAre(lib, credentials, signer)
      ensures ok <==>
              forall key :: key in credentials ==>
                var c := credentials[key];
                && c.subjectID.Some?
                && (c.jwt != "" ==> lib.jwtSub(c.jwt) == Some(signer))
                && (c.jwt == "" ==> c.subjectID == Some(signer))
    {
      SubjectsAreIff(lib, credentials, signer);
      var keys := credentials.Keys;
      while keys != {}
        invariant keys <= credentials.Keys
        invariant forall key :: key in credentials && key !in keys ==> SubjectOf(lib, credentials[key]) == Some(signer)
        decreases |keys|
      {
        var key :| key in keys;
        keys := keys - {key};
        var cred := credentials[key];
        if cred.subjectID.None? {
          return false;
        }
        var subjectID := cred.subjectID.value;
        if cred.jwt != "" {
          var sub := lib.jwtSub(cred.jwt);
          if sub.None? {
            return false;
          }
          subjectID := sub.value;
        }
        if signer != subjectID {
          return false;
        }
      }
      ok := true;
    }

    method ExtractClaimData(txID: TxID, tx: Transaction, token: ProcessedVPToken, profile: Profile, f: VerifyFaults)
      returns (r: Result<(), VerifyError>)
      modifies transactionManager.txStore, token.presentation
      ensures token.presentation.data == old(token.presentation.data).(jwt := "")
      ensures var txs := old(transactionManager.txStore.txs);
              var claims := ClaimsOf(lib, tx.definition, profile, old(token.presentation.data), token.signer);
              && (r.Ok? <==> claims.Some? && txID in txs && f.update == Done && !f.publishFails)
              && (r == Err(StoreFailed) <==> claims.Some? && !(txID in txs && f.update == Done))
              && (r == Err(EventFailed) <==> claims.Some? && txID in txs && f.update == Done && f.publishFails)
              && (r in {Err(MarshalFailed), Err(MatchFailed), Err(SubjectMismatch)} <==> claims.None?)
              && transactionManager.txStore.txs ==
                 if claims.Some? && txID in txs && f.update.Applied() then txs[txID := txs[txID].(received := claims)]
                 else txs
    {
      token.presentation.data := token.presentation.data.(jwt := "");
      if !lib.marshals(token.presentation.data) {
        return Err(MarshalFailed);
      }
      var credentials := lib.matching(tx.definition, token.presentation.data);
      if credentials.None? {
        return Err(MatchFailed);
      }
      if profile.checkVCSubject {
        var ok := CheckVCSubject(credentials.value, token.signer);
        if !ok {
          return Err(SubjectMismatch);
        }
      }
      var stored := transactionManager.StoreReceivedClaims(txID, credentials.value, f.update);
      if !stored {
        return Err(StoreFailed);
      }
      if f.publishFails {
        return Err(EventFailed);
      }
      r := Ok(());
    }

    // Whatever the outcome the nonce is spent; claims reach the transaction named by the caller exactly when
    // that nonce was its own and unexpired and the presentation passes the gate, and no other transaction changes.
    method VerifyOIDCVerifiablePresentation(txID: TxID, token: ProcessedVPToken, now: int, f: VerifyFaults)
      returns (r: Result<(), VerifyError>)
      requires now > ZERO_TIME
      modifies transactionManager.nonceStore, transactionManager.txStore, token.presentation
      ensures var (docs', taken) := Take(old(transactionManager.nonceStore.docs), token.nonce, now, f.take);
              var txs := old(transactionManager.txStore.txs);
              var admitted := taken == Some(txID) && !f.getFails && txID in txs;
              var claims := if admitted then Gate(lib, txs[txID], old(token.presentation.data), token.signer) else None;
              && transactionManager.nonceStore.docs == docs'
              && (r.Ok? <==> claims.Some? && f.update == Done && !f.publishFails)
              && (r == Err(LookupFailed) <==> taken.Some? && (f.getFails || taken.value !in txs))
              && (r == Err(InvalidNonce) <==>
                    taken.None? || (!f.getFails && taken.value in txs && taken.value != txID))
              && (r in {Err(LookupFailed), Err(InvalidNonce)} <==> !admitted)
              && (admitted ==>
                    var data, profile := old(token.presentation.data), lib.profile(txs[txID].profileID);
                    var verified :=
                      if profile.Some? && lib.marshals(data) then lib.verify(data, profile.value) else None;
                    && (r == Err(ProfileMissing) <==> profile.None?)
                    && (r == Err(VerificationFailed) <==> profile.Some? && lib.marshals(data) && verified.None?)
                    && (r == Err(ChecksFailed) <==> verified.Some? && verified.value != [])
                    && token.presentation.data == if verified == Some([]) then data.(jwt := "") else data)
              && (!admitted ==> token.presentation.data == old(token.presentation.data))
              && transactionManager.txStore.txs ==
                 if claims.Some? && f.update.Applied() then txs[txID := txs[txID].(received := claims)] else txs
    {
      var found := transactionManager.GetByOneTimeToken(token.nonce, now, f.take, f.getFails);
      if found.Err? {
        return Err(LookupFailed);
      }
      if found.value.None? || found.value.value.0 != txID {
        return Err(InvalidNonce);
      }
      var tx := found.value.value.1;
      var profile := lib.profile(tx.profileID);
      if profile.None? {
        return Err(ProfileMissing);
      }
      if !lib.marshals(token.presentation.data) {
        return Err(MarshalFailed);
      }
      var vr := lib.verify(token.presentation.data, profile.value);
      if vr.None? {
        return Err(VerificationFailed);
      }
      if |vr.value| > 0 {
        return Err(ChecksFailed);
      }
      r := ExtractClaimData(txID, tx, token, profile.value, f);
    }
  }
}
