/**
 What the two services answer, stated on the credential status and the state: which calls succeed, which are
 refused and how. StatusLists.dfy computes the answers step by step, as the services do.
 */
module StatusAnswers {
  import opened Wrappers
  import opened Text
  import opened BitStrings
  import opened StatusLists

  // A status of the supported type with all three fields.
  predicate Described(status: Option<TypedID>) {
    && status.Some?
    && status.value.kind == "StatusList2021Entry"
    && {"statusListIndex", "statusListCredential", "statusPurpose"} <= status.value.fields.Keys
  }

  // A status that names a slot.
  predicate Names(status: Option<TypedID>, key: string, index: int) {
    && Described(status)
    && status.value.fields["statusListCredential"] == Text(key)
    && status.value.fields["statusListIndex"].Text?
    && Atoi(status.value.fields["statusListIndex"].text) == Some(index)
  }

  // An ill-described status is refused by both services, the first fault deciding, and changes nothing.
  lemma IllDescribedIsRefused(s: System, req: UpdateReq, issuer: string, fails: bool)
    requires !Described(req.status)
    ensures var status, (s', r) := req.status, Update(s, req);
            && s' == s && r.Err? && Validate(s, status, issuer, fails) == r
            && (r.error == StatusMissing <==> status.None?)
            && (r.error == StatusTypeUnsupported <==> status.Some? && status.value.kind != "StatusList2021Entry")
            && (status.Some? && status.value.kind == "StatusList2021Entry" ==>
                  var present := status.value.fields.Keys;
                  r.error == if "statusListIndex" !in present then IndexFieldMissing
                             else if "statusListCredential" !in present then CredentialFieldMissing
                             else PurposeFieldMissing)
  {
  }

  // A status that names no slot is refused as well.
  lemma UnnamedIsRefused(s: System, req: UpdateReq, issuer: string, fails: bool)
    requires Described(req.status) && forall key, index :: !Names(req.status, key, index)
    ensures Update(s, req).0 == s && Update(s, req).1.Err?
    ensures Validate(s, req.status, issuer, fails) in {Err(Panic), Err(IndexNotANumber)}
  {
    var fields := req.status.value.fields;
    if fields["statusListCredential"].Text? && fields["statusListIndex"].Text? {
      var index := Atoi(fields["statusListIndex"].text);
      if index.Some? {
        assert Names(req.status, fields["statusListCredential"].text, index.value);
      }
    }
  }

  // What the verifier says about a slot: a list that is not there or cannot be read, a foreign issuer, another
  // purpose and a position past the end are refused, in this order; otherwise the bit decides.
  lemma VerifierAnswers(s: System, status: Option<TypedID>, issuer: string, fails: bool, key: string, index: int)
    requires Names(status, key, index)
    ensures var r, purpose := Validate(s, status, issuer, fails), status.value.fields["statusPurpose"];
            && (fails ==> r == Err(StoreReadFailed))
            && (!fails && key !in s.lists ==> r in {Err(ListNotFound), Err(ParseFailed)})
            && (!fails && key in s.lists ==>
                  var list := s.lists[key];
                  && (r == Err(IssuerMismatch) <==> list.issuer != issuer)
                  && (list.issuer == issuer ==>
                        && (purpose.NotText? ==> r == Err(Panic))
                        && (r == Err(PurposeMismatch) <==> purpose.Text? && purpose.text != "revocation")
                        && (purpose == Text("revocation") ==>
                              && (r == Err(PositionInvalid) <==> !(0 <= index < |list.bits|))
                              && (r == Err(Revoked) <==> 0 <= index < |list.bits| && list.bits[index])
                              && (r == Ok(()) <==> 0 <= index < |list.bits| && !list.bits[index]))))
  {
    assert |"statusPurpose"| != |"statusListIndex"|;
  }

  // What an update of a slot does: it succeeds exactly when the list is there and can be read, its proof can be
  // read, the position is in its bit string, the new list can be signed and the write succeeds.
  lemma UpdateAnswers(s: System, req: UpdateReq, key: string, index: int)
    requires Names(req.status, key, index)
    ensures var (s', r) := Update(s, req);
            var stored := !req.readListFails && key in s.lists;
            var rewritten := stored && req.prepared && 0 <= index < |s.lists[key].bits| && req.signed;
            && (r == Ok(()) <==> rewritten && req.upsert == Done)
            && (r == Err(PositionInvalid) <==> stored && req.prepared && !(0 <= index < |s.lists[key].bits|))
            && (r == Err(StoreWriteFailed) <==> rewritten && req.upsert != Done)
            && (r == Err(StoreReadFailed) <==> req.readListFails)
            && s'.latest == s.latest && s'.lists.Keys == s.lists.Keys
            && (forall k :: k in s.lists && k != key ==> s'.lists[k] == s.lists[k])
            && (key in s.lists ==>
                  s'.lists[key] == if rewritten && req.upsert != FailedUnapplied
                                   then s.lists[key].(bits := s.lists[key].bits[index := req.value])
                                   else s.lists[key])
  {
  }

  // A creation succeeds exactly when every read, build and write it needs does, and then returns the next index
  // of the list at the latest ID, which is 1 for a new service; only that list can change, and the counter
  // moves on by one exactly when the list is full.
  lemma CreateAnswers(s: System, listSize: int, req: CreateReq)
    ensures var (s', r) := Create(s, listSize, req);
            var id := if s.latest.Some? then s.latest.value else 1;
            var key := req.url + "/" + Itoa(id);
            var missing := s.latest.None? || key !in s.lists;
            var next := if missing then 0 else s.lists[key].next;
            var listID := if missing then id else s.lists[key].listID;
            var full := (if missing then 0 else s.lists[key].size) + 1 == listSize;
            && (r.Ok? <==>
                  && !req.readLatestFails
                  && (if s.latest.Some? then !req.readListFails else req.createLatest == Done)
                  && (missing ==> req.built)
                  && req.upsert == Done
                  && (full ==> req.updateLatest == Done))
            && (r.Ok? ==>
                  && r.value == Slot(key, next)
                  && key in s'.lists && s'.lists[key].next == next + 1
                  && s'.latest == Some(if full then listID + 1 else id))
            && (forall k :: k in s.lists && k != key ==> k in s'.lists && s'.lists[k] == s.lists[k])
            && (forall k :: k in s'.lists && k != key ==> k in s.lists)
  {
  }

  // A list has room for listSize statuses, 128000 at least, and fewer than eight bits to spare.
  lemma CapacityIs(listSize: int)
    ensures listSize <= 128000 ==> Capacity(listSize) == 128000
    ensures listSize > 128000 ==> listSize <= Capacity(listSize) < listSize + 8 && Capacity(listSize) % 8 == 0
  {
  }

  // The issuer of a list is the DID of whoever asked for its first status.
  lemma FirstStatusNamesIssuer(s: System, listSize: int, req: CreateReq, key: string) returns (id: int)
    requires key !in s.lists && key in Create(s, listSize, req).0.lists
    ensures key == ListKey(req.url, id) && Create(s, listSize, req).0.lists[key].issuer == req.did
  {
    id := if s.latest.Some? then s.latest.value else 1;
  }
}
