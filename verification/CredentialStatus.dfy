/**
 The credential status service and the verifier that reads its lists back:
 pkg/service/credentialstatus/credentialstatus_service.go and
 pkg/service/verifycredential/verifycredential_service.go.
 Every method is proved against the function of the same call in StatusLists.
 */
module CredentialStatus {
  import opened Wrappers
  import opened Text
  import opened BitStrings
  import opened StatusAnswers
  import opened StatusLists
  import opened CslStores

  // ---- The libraries the service calls ----

  // Two credentials that differ at most in how they are signed.
  predicate SameList(a: Credential, b: Credential) {
    a.id == b.id && a.issuer == b.issuer && a.subject == b.subject
  }

  datatype Library = Library(codec: Codec, marshal: Credential -> Option<VcJson>, parse: VcJson -> Option<Credential>) {
    ghost predicate ParsesBack(c: Credential) {
      marshal(c).Some? ==>
        && (marshal(c).value.LdpJson? ==> marshal(c).value.id == Some(c.id))
        && parse(marshal(c).value).Some?
        && SameList(parse(marshal(c).value).value, c)
    }

    // Encoding loses nothing, and nothing parses to nothing.
    ghost predicate Faithful() {
      codec.Lossless() && parse(NoJson).None?
    }
  }

  // The options read off an old proof: what they name of it, and the method and type only where they are needed.
  datatype SigningOpts =
    | DefaultOpts
    | FromProof(representation: string, purpose: string,
                verificationMethod: Option<string>, signatureType: Option<string>)

  // The issuer's profile, the names of the signature types, and how it signs.
  datatype Signer = Signer(did: string, creator: string, signatureTypes: set<string>,
                           sign: (Credential, SigningOpts) -> Option<Credential>) {
    ghost predicate Keeps(lib: Library, c: Credential, opts: SigningOpts) {
      sign(c, opts).Some? ==> SameList(sign(c, opts).value, c) && lib.ParsesBack(sign(c, opts).value)
    }

    // Signing changes nothing but the proofs, and what this signer returns parses back to the same list.
    ghost predicate Faithful(lib: Library) {
      forall c: Credential, opts: SigningOpts :: Keeps(lib, c, opts)
    }
  }

  // getStringValue: a missing entry reads as the empty string, one that is no string is an error.
  function StringValue(proof: Proof, key: string): Option<string> {
    if key !in proof then Some("") else if proof[key].Text? then Some(proof[key].text) else None
  }

  // prepareSigningOpts: the latest proof decides; a list without proofs is signed with the defaults.
  function PrepareSigningOpts(signer: Signer, proofs: seq<Proof>): Option<SigningOpts> {
    if |proofs| == 0 then Some(DefaultOpts)
    else
      var proof := proofs[|proofs| - 1];
      var purpose := StringValue(proof, "proofPurpose");
      var vm := StringValue(proof, "verificationMethod");
      var typeName := StringValue(proof, "type");
      if purpose.None? || vm.None? || typeName.None? then None
      else if typeName.value != "" && typeName.value !in signer.signatureTypes then None
      else
        Some(FromProof(if "proofValue" in proof then "proofValue" else "jws",
                       purpose.value,
                       if !("did:key" <= signer.creator) && vm.value != signer.creator then vm else None,
                       if typeName.value != "" then typeName else None))
  }

  predicate Says(proof: Proof, key: string, text: string) {
    key in proof && proof[key] == Text(text)
  }

  // A list that was signed with a purpose, a method and a type is signed again with the same ones, whatever
  // older proofs it has; the method is left out where the profile implies it.
  lemma LatestProofDecides(signer: Signer, older: seq<Proof>, proof: Proof, purpose: string, vm: string, name: string)
    requires Says(proof, "proofPurpose", purpose) && Says(proof, "verificationMethod", vm) && Says(proof, "type", name)
    requires name in signer.signatureTypes && name != ""
    ensures var opts := PrepareSigningOpts(signer, older + [proof]);
            && opts.Some? && opts.value.FromProof?
            && opts.value.purpose == purpose && opts.value.signatureType == Some(name)
            && (opts.value.verificationMethod == Some(vm) <==> vm != signer.creator && !("did:key" <= signer.creator))
            && (opts.value.representation == "proofValue" <==> "proofValue" in proof)
  {
    assert (older + [proof])[|older|] == proof;
  }

  // An entry that is no string and an unknown type are errors, and nothing else is.
  lemma UnreadableProofIff(signer: Signer, older: seq<Proof>, proof: Proof)
    ensures PrepareSigningOpts(signer, older + [proof]).None? <==>
            || (exists key :: key in {"proofPurpose", "verificationMethod", "type"}
                              && key in proof && proof[key].NotText?)
            || ("type" in proof && proof["type"] != Text("") && proof["type"].text !in signer.signatureTypes)
  {
    assert (older + [proof])[|older|] == proof;
  }

  function UnsignedList(lib: Library, listSize: int, vcID: string, did: string): Credential {
    Credential(vcID, did, ListSubject(REVOCATION, lib.codec.encode(seq(Capacity(listSize) / 8, _ => 0))), [], "")
  }

  function BuiltList(lib: Library, listSize: int, signer: Signer, vcID: string): Option<Credential> {
    signer.sign(UnsignedList(lib, listSize, vcID, signer.did), DefaultOpts)
  }

  // The list credential with a new bit string, stripped of its proofs.
  function Rewritten(vc: Credential, encodedList: string): Credential {
    vc.(proofs := [], subject := vc.subject.(encodedList := encodedList))
  }

  // Whether that credential can be signed again and serialized.
  predicate Resigns(lib: Library, signer: Signer, opts: SigningOpts, vc: Credential, encodedList: string) {
    var signed := signer.sign(Rewritten(vc, encodedList), opts);
    signed.Some? && lib.marshal(signed.value).Some?
  }

  // The document holds the credential with the new bit string and no old proof, signed with these options.
  ghost predicate StoresResigned(lib: Library, doc: Document, signer: Signer, opts: SigningOpts, vc: Credential,
                                 encodedList: string)
  {
    var rewritten := Credential(vc.id, vc.issuer, ListSubject(vc.subject.statusPurpose, encodedList), [], vc.jwt);
    var signed := signer.sign(rewritten, opts);
    && doc.csl.Some? && signed.Some? && lib.marshal(signed.value).Some?
    && doc.csl.value.vc == StripId(lib.marshal(signed.value).value)
  }

  // The encoded bit string of a list credential with one bit written.
  function Reencoded(lib: Library, vc: Credential, index: int, value: bool): string
    requires lib.codec.decode(vc.subject.encodedList).Some?
  {
    lib.codec.encode(SetBytes(lib.codec.decode(vc.subject.encodedList).value, index, value))
  }

  // ---- What a stored document means ----

  ghost predicate MeansList(lib: Library, key: string, stored: StoredCsl) {
    var parsed := lib.parse(RestoreId(stored.vc, key));
    && parsed.Some?
    && parsed.value.id == key
    && parsed.value.subject.statusPurpose == REVOCATION
    && lib.codec.decode(parsed.value.subject.encodedList).Some?
  }

  ghost function ListOf(lib: Library, key: string, stored: StoredCsl): StatusList
    requires MeansList(lib, key, stored)
  {
    var vc := lib.parse(RestoreId(stored.vc, key)).value;
    StatusList(stored.listID, stored.size, stored.revocationListIndex, vc.issuer,
               Bits(lib.codec.decode(vc.subject.encodedList).value))
  }

  ghost predicate GoodDocument(lib: Library, key: string, doc: Document) {
    if key == LATEST_LIST_ID_KEY then doc.csl.None? && doc.latest.Some?
    else doc.latest.None? && doc.csl.Some? && MeansList(lib, key, doc.csl.value)
  }

  ghost predicate GoodDocuments(lib: Library, docs: map<string, Document>) {
    forall key :: key in docs ==> GoodDocument(lib, key, docs[key])
  }

  ghost function ListsOf(lib: Library, docs: map<string, Document>): map<string, StatusList>
    requires GoodDocuments(lib, docs)
  {
    map key | key in docs && key != LATEST_LIST_ID_KEY ::
      assert GoodDocument(lib, key, docs[key]); ListOf(lib, key, docs[key].csl.value)
  }

  ghost function CounterOf(docs: map<string, Document>): Option<int> {
    if LATEST_LIST_ID_KEY in docs then docs[LATEST_LIST_ID_KEY].latest else None
  }

  lemma PutDocument(lib: Library, docs: map<string, Document>, key: string, stored: StoredCsl)
    requires GoodDocuments(lib, docs) && key != LATEST_LIST_ID_KEY && MeansList(lib, key, stored)
    ensures var docs' := WithList(docs, key, stored);
            && GoodDocuments(lib, docs')
            && ListsOf(lib, docs') == ListsOf(lib, docs)[key := ListOf(lib, key, stored)]
            && CounterOf(docs') == CounterOf(docs)
  {
  }

  lemma PutCounter(lib: Library, docs: map<string, Document>, id: int)
    requires GoodDocuments(lib, docs)
    ensures var docs' := docs[LATEST_LIST_ID_KEY := Document(None, Some(id))];
            && (LATEST_LIST_ID_KEY in docs ==>
                  docs[LATEST_LIST_ID_KEY].(latest := Some(id)) == Document(None, Some(id)))
            && GoodDocuments(lib, docs')
            && ListsOf(lib, docs') == ListsOf(lib, docs)
            && CounterOf(docs') == Some(id)
  {
  }

  // What a list stored by the service means: its parsed credential's issuer and decoded bits.
  lemma StoredMeans(lib: Library, signed: Credential, json: VcJson, bytes: seq<byte>, size: int, next: int, listID: int)
    requires lib.Faithful() && lib.ParsesBack(signed) && lib.marshal(signed) == Some(json)
    requires signed.subject == ListSubject(REVOCATION, lib.codec.encode(bytes))
    ensures var stored := StoredCsl(StripId(json), size, next, listID);
            && MeansList(lib, signed.id, stored)
            && ListOf(lib, signed.id, stored) == StatusList(listID, size, next, signed.issuer, Bits(bytes))
  {
    StripRestore(json, signed.id);
    assert lib.codec.decode(lib.codec.encode(bytes)) == Some(bytes);
  }

  lemma ZeroBits(n: nat)
    ensures Bits(seq(n, _ => 0)) == seq(8 * n, _ => false)
  {
    var zeros: seq<byte> := seq(n, _ => 0);
    forall p | 0 <= p < 8 * n ensures Bits(zeros)[p] == false {
      assert zeros[p / 8] == 0;
      ZeroByte(p % 8);
    }
  }

  lemma ZeroByte(n: nat)
    requires n < 8
    ensures !BitOf(0, n)
  {
  }

  // ---- The service ----

  datatype CreateFaults = CreateFaults(readLatestFails: bool, createLatest: WriteOutcome, readListFails: bool,
                                       upsert: WriteOutcome, updateLatest: WriteOutcome)

  datatype UpdateFaults = UpdateFaults(readListFails: bool, upsert: WriteOutcome)

  class Service {
    const cslStore: Store
    const listSize: int
    const lib: Library

    constructor (cslStore: Store, listSize: int, lib: Library)
      ensures this.cslStore == cslStore && this.listSize == listSize && this.lib == lib
      ensures lib.Faithful() && cslStore.docs == map[] ==> Valid() && State() == INITIAL
    {
      this.cslStore, this.listSize, this.lib := cslStore, listSize, lib;
    }

    ghost predicate Valid()
      reads cslStore
    {
      lib.Faithful() && GoodDocuments(lib, cslStore.docs)
    }

    ghost function State(): System
      requires Valid()
      reads cslStore
    {
      System(CounterOf(cslStore.docs), ListsOf(lib, cslStore.docs))
    }

    // The list credential this signer would build for a key can be built and serialized.
    ghost predicate Builds(signer: Signer, vcID: string) {
      var built := BuiltList(lib, listSize, signer, vcID);
      built.Some? && lib.marshal(built.value).Some?
    }

    ghost function CreateRequest(signer: Signer, url: string, f: CreateFaults): CreateReq
      requires Valid()
      reads cslStore
    {
      var id := if State().latest.Some? then State().latest.value else 1;
      CreateReq(url, signer.did, Builds(signer, ListKey(url, id)), f.readLatestFails, f.createLatest,
                f.readListFails, f.upsert, f.updateLatest)
    }

    ghost function StoredCredential(key: string): Credential
      requires Valid() && key in State().lists
      reads cslStore
    {
      assert GoodDocument(lib, key, cslStore.docs[key]);
      lib.parse(RestoreId(cslStore.docs[key].csl.value.vc, key)).value
    }

    // Whether the libraries let this update through: the old proof is readable, the new list can be signed.
    ghost function UpdateRequest(signer: Signer, status: Option<TypedID>, value: bool, f: UpdateFaults): UpdateReq
      requires Valid()
      reads cslStore
    {
      var blank := UpdateReq(status, value, f.readListFails, true, true, f.upsert);
      if CheckStatus(status).Some? || status.value.fields[STATUS_LIST_CREDENTIAL].NotText? then blank
      else
        var key := status.value.fields[STATUS_LIST_CREDENTIAL].text;
        if key !in State().lists then blank
        else
          assert GoodDocument(lib, key, cslStore.docs[key]);
          var vc := StoredCredential(key);
          var opts := PrepareSigningOpts(signer, vc.proofs);
          if opts.None? then blank.(prepared := false)
          else if status.value.fields[STATUS_LIST_INDEX].NotText? then blank
          else
            var index := Atoi(status.value.fields[STATUS_LIST_INDEX].text);
            if index.None? then blank
            else
              blank.(signed := Resigns(lib, signer, opts.value, vc, Reencoded(lib, vc, index.value, value)))
    }

    method CreateVC(vcID: string, signer: Signer) returns (r: Option<Credential>)
      ensures r == BuiltList(lib, listSize, signer, vcID)
      ensures var subject := ListSubject("revocation", lib.codec.encode(seq(Capacity(listSize) / 8, _ => 0)));
              r == signer.sign(Credential(vcID, signer.did, subject, [], ""), DefaultOpts)
    {
      var size := listSize;
      if size < BIT_STRING_SIZE {
        size := BIT_STRING_SIZE;
      }
      var bitString := new BitString.New(size);
      assert bitString.bits[..] == seq(Capacity(listSize) / 8, _ => 0);
      var encodedBits := lib.codec.encode(bitString.bits[..]);
      var credential := Credential(vcID, signer.did, ListSubject(REVOCATION, encodedBits), [], "");
      var opts := PrepareSigningOpts(signer, credential.proofs);
      r := signer.sign(credential, opts.value);
    }

    // getCSLWrapper
    method GetCSLWrapper(id: string, readFails: bool) returns (r: Result<CSLWrapper, StatusError>)
      requires Valid()
      ensures var list := Lookup(State(), id, readFails);
              && (list.Err? ==> r == Err(list.error))
              && (list.Ok? ==>
                    && r.Ok? && fresh(r.value)
                    && r.value.vc == Some(StoredCredential(id))
                    && r.value.vcByte == RestoreId(cslStore.docs[id].csl.value.vc, id)
                    && r.value.size == list.value.size
                    && r.value.revocationListIndex == list.value.next
                    && r.value.listID == list.value.listID)
    {
      r := cslStore.Get(id, readFails);
      if r.Err? {
        return;
      }
      assert GoodDocument(lib, id, cslStore.docs[id]);
      var w := r.value;
      var parsed := lib.parse(w.vcByte);
      if parsed.None? {
        return Err(ParseFailed);
      }
      w.vc := parsed;
    }

    method GetRevocationListVC(id: string, readFails: bool) returns (r: Result<Credential, StatusError>)
      requires Valid()
      ensures var list := Lookup(State(), id, readFails);
              r == if list.Ok? then Ok(StoredCredential(id)) else Err(list.error)
    {
      var w := GetCSLWrapper(id, readFails);
      if w.Err? {
        return Err(w.error);
      }
      r := Ok(w.value.vc.value);
    }

    // A wrapper in hand that stands for a list of the state, ready to be counted up and stored.
    ghost predicate Carries(w: CSLWrapper, key: string, list: StatusList)
      reads w
    {
      && w.vc.Some? && w.vc.value.id == key
      && w.listID == list.listID && w.size == list.size && w.revocationListIndex == list.next
      && forall size, next :: var stored := StoredCsl(StripId(w.vcByte), size, next, w.listID);
           && MeansList(lib, key, stored)
           && ListOf(lib, key, stored) == list.(size := size, next := next)
    }

    lemma FreshCarries(signer: Signer, vcID: string)
      requires lib.Faithful() && signer.Faithful(lib) && Builds(signer, vcID)
      ensures var vc := BuiltList(lib, listSize, signer, vcID).value;
              && vc.id == vcID
              && forall size, next, listID ::
                   var stored := StoredCsl(StripId(lib.marshal(vc).value), size, next, listID);
                   && MeansList(lib, vcID, stored)
                   && ListOf(lib, vcID, stored)
                      == FreshList(listSize, listID, signer.did).(size := size, next := next)
    {
      var vc := BuiltList(lib, listSize, signer, vcID).value;
      assert signer.Keeps(lib, UnsignedList(lib, listSize, vcID, signer.did), DefaultOpts);
      forall size, next, listID
        ensures var stored := StoredCsl(StripId(lib.marshal(vc).value), size, next, listID);
                && MeansList(lib, vcID, stored)
                && ListOf(lib, vcID, stored) == FreshList(listSize, listID, signer.did).(size := size, next := next)
      {
        StoredMeans(lib, vc, lib.marshal(vc).value, seq(Capacity(listSize) / 8, _ => 0), size, next, listID);
        ZeroBits(Capacity(listSize) / 8);
      }
    }

    // getLatestCSLWrapper
    method GetLatestCSLWrapper(signer: Signer, url: string, f: CreateFaults)
      returns (r: Result<CSLWrapper, StatusError>)
      requires Valid() && signer.Faithful(lib)
      modifies cslStore
      ensures Valid()
      ensures var (s', got) := Obtain(old(State()), listSize, old(CreateRequest(signer, url, f)));
              && State() == s'
              && (got.Err? ==> r == Err(got.error))
              && (got.Ok? ==> r.Ok? && fresh(r.value) && Carries(r.value, got.value.key, got.value.list))
    {
      var latest := cslStore.GetLatestListID(f.readLatestFails);
      if latest.Err? {
        if latest.error == ListNotFound {
          PutCounter(lib, cslStore.docs, 1);
          var created := cslStore.CreateLatestListID(1, f.createLatest);
          if !created {
            return Err(StoreWriteFailed);
          }
          r := NewWrapper(signer, ListKey(url, 1), 1);
          return;
        }
        return Err(StoreReadFailed);
      }
      var id := latest.value;
      assert GoodDocument(lib, LATEST_LIST_ID_KEY, cslStore.docs[LATEST_LIST_ID_KEY]);
      var vcID := ListKey(url, id);
      ListKeyIsNotCounterKey(url, id);
      var w := GetCSLWrapper(vcID, f.readListFails);
      if w.Err? {
        if w.error == ListNotFound {
          r := NewWrapper(signer, vcID, id);
          return;
        }
        return Err(w.error);
      }
      assert GoodDocument(lib, vcID, cslStore.docs[vcID]);
      StripRestore(cslStore.docs[vcID].csl.value.vc, vcID);
      r := w;
    }

    // The wrapper of a list that is not stored yet: built, signed and serialized.
    method NewWrapper(signer: Signer, vcID: string, id: int) returns (r: Result<CSLWrapper, StatusError>)
      requires lib.Faithful() && signer.Faithful(lib)
      ensures !Builds(signer, vcID) ==> r == Err(SigningFailed)
      ensures Builds(signer, vcID) ==>
                r.Ok? && fresh(r.value) && Carries(r.value, vcID, FreshList(listSize, id, signer.did))
    {
      var vc := CreateVC(vcID, signer);
      if vc.None? {
        return Err(SigningFailed);
      }
      var vcBytes := lib.marshal(vc.value);
      if vcBytes.None? {
        return Err(SigningFailed);
      }
      FreshCarries(signer, vcID);
      var w := new CSLWrapper(vcBytes.value, 0, 0, id, vc);
      r := Ok(w);
    }

    lemma ObtainedKey(s: System, signer: Signer, url: string, req: CreateReq)
      requires Obtain(s, listSize, req).1.Ok?
      ensures Obtain(s, listSize, req).1.value.key != LATEST_LIST_ID_KEY
      ensures Obtain(s, listSize, req).0.latest.Some?
    {
      ListKeyIsNotCounterKey(req.url, if s.latest.Some? then s.latest.value else 1);
    }

    // Lines 128-134 of CreateStatusID: move the counter on.
    method RollOver(listID: int, outcome: WriteOutcome) returns (ok: bool)
      requires Valid() && State().latest.Some?
      modifies cslStore
      ensures Valid() && (ok <==> outcome == Done)
      ensures State() == if outcome.Applied() then old(State()).(latest := Some(listID + 1)) else old(State())
    {
      var id := listID + 1;
      PutCounter(lib, cslStore.docs, id);
      ok := cslStore.UpdateLatestListID(id, outcome);
    }

    // Lines 120-125 of CreateStatusID: count the list up and store it.
    method CountUp(w: CSLWrapper, ghost key: string, ghost list: StatusList, outcome: WriteOutcome) returns (ok: bool)
      requires Valid() && Carries(w, key, list) && key != LATEST_LIST_ID_KEY
      modifies cslStore, w
      ensures Valid() && (ok <==> outcome == Done)
      ensures State() == if outcome.Applied()
                         then old(State()).(lists := old(State()).lists[key := Counted(list)])
                         else old(State())
      ensures w.size == list.size + 1 && w.listID == list.listID && w.vc == old(w.vc)
    {
      w.size := w.size + 1;
      w.revocationListIndex := w.revocationListIndex + 1;

      ghost var stored := StoredCsl(StripId(w.vcByte), w.size, w.revocationListIndex, w.listID);
      assert MeansList(lib, key, stored) && ListOf(lib, key, stored) == Counted(list);
      PutDocument(lib, cslStore.docs, key, stored);
      ok := cslStore.Upsert(w, outcome);
    }

    // Lines 118-145 of CreateStatusID: count the list up, store it, roll over when it is full.
    method CommitStatus(w: CSLWrapper, ghost got: Obtained, f: CreateFaults) returns (r: Result<TypedID, StatusError>)
      requires Valid() && Carries(w, got.key, got.list)
      requires got.key != LATEST_LIST_ID_KEY && State().latest.Some?
      modifies cslStore, w
      ensures Valid()
      ensures var (s', slot) := Commit(old(State()), listSize, got, f.upsert, f.updateLatest);
              && State() == s'
              && r == if slot.Ok? then Ok(StatusOf(slot.value)) else Err(slot.error)
    {
      var revocationListIndex := Itoa(w.revocationListIndex);

      var stored := CountUp(w, got.key, got.list, f.upsert);
      if !stored {
        return Err(StoreWriteFailed);
      }

      if w.size == listSize {
        var updated := RollOver(w.listID, f.updateLatest);
        if !updated {
          return Err(StoreWriteFailed);
        }
      }

      r := Ok(TypedID(STATUS_LIST_2021_ENTRY,
                      map[STATUS_PURPOSE := Text(REVOCATION),
                          STATUS_LIST_INDEX := Text(revocationListIndex),
                          STATUS_LIST_CREDENTIAL := Text(w.vc.value.id)]));
    }

    method CreateStatusID(signer: Signer, url: string, f: CreateFaults) returns (r: Result<TypedID, StatusError>)
      requires Valid() && signer.Faithful(lib)
      modifies cslStore
      ensures Valid()
      ensures var (s', slot) := Create(old(State()), listSize, old(CreateRequest(signer, url, f)));
              && State() == s'
              && r == if slot.Ok? then Ok(StatusOf(slot.value)) else Err(slot.error)
    {
      ghost var req := CreateRequest(signer, url, f);
      ghost var (s1, got) := Obtain(State(), listSize, req);
      if got.Ok? { ObtainedKey(State(), signer, url, req); }
      var wrapper := GetLatestCSLWrapper(signer, url, f);
      if wrapper.Err? {
        return Err(wrapper.error);
      }
      r := CommitStatus(wrapper.value, got.value, f);
    }

    // Lines 207-211 of UpdateVC: write the bit and encode the bit string again.
    method WriteStatusBit(vc: Credential, bitString: BitString, index: int, value: bool)
      returns (encodedList: Option<string>, ghost bytes: seq<byte>)
      requires lib.codec.Lossless()
      requires lib.codec.decode(vc.subject.encodedList) == Some(bitString.bits[..])
      modifies bitString.bits
      ensures encodedList.Some? <==> 0 <= index < |Bits(old(bitString.bits[..]))|
      ensures encodedList.Some? ==>
                && encodedList == Some(Reencoded(lib, vc, index, value))
                && encodedList == Some(lib.codec.encode(bytes))
                && Bits(bytes) == Bits(old(bitString.bits[..]))[index := value]
    {
      bytes := SetBytes(bitString.bits[..], index, value);
      SetBytesBits(bitString.bits[..], index, value);
      var inRange := bitString.Set(index, value);
      if !inRange {
        return None, bytes;
      }
      var encoded := bitString.EncodeBits(lib.codec);
      encodedList := Some(encoded);
    }

    // Lines 211-231: put the new bit string in, drop the old proofs, sign the rewritten list and store it.
    method SignAndStore(w: CSLWrapper, encodedList: string, signer: Signer, signOpts: SigningOpts, ghost key: string,
                        ghost bytes: seq<byte>, upsert: WriteOutcome)
      returns (r: Result<(), StatusError>)
      requires Valid() && signer.Faithful(lib) && key in State().lists
      requires var list := State().lists[key];
               && w.size == list.size && w.revocationListIndex == list.next && w.listID == list.listID
               && w.vc.Some? && w.vc.value.id == key && w.vc.value.issuer == list.issuer
               && w.vc.value.subject.statusPurpose == REVOCATION && encodedList == lib.codec.encode(bytes)
      modifies cslStore, w
      ensures Valid()
      ensures var s := old(State());
              if !Resigns(lib, signer, signOpts, old(w.vc.value), encodedList)
              then State() == s && r == Err(SigningFailed)
              else
                var s' := s.(lists := s.lists[key := s.lists[key].(bits := Bits(bytes))]);
                && State() == (if upsert.Applied() then s' else s)
                && (r == if upsert == Done then Ok(()) else Err(StoreWriteFailed))
                && (upsert.Applied() ==>
                      key in cslStore.docs
                      && StoresResigned(lib, cslStore.docs[key], signer, signOpts, old(w.vc.value), encodedList))
    {
      assert GoodDocument(lib, key, cslStore.docs[key]);
      w.vc := Some(w.vc.value.(subject := w.vc.value.subject.(encodedList := encodedList)));
      // remove all proofs because the list is being updated
      w.vc := Some(w.vc.value.(proofs := []));
      var signed := signer.sign(w.vc.value, signOpts);
      if signed.None? {
        return Err(SigningFailed);
      }
      assert signer.Keeps(lib, w.vc.value, signOpts);
      var signedBytes := lib.marshal(signed.value);
      if signedBytes.None? {
        return Err(SigningFailed);
      }
      w.vcByte := signedBytes.value;

      StoredMeans(lib, signed.value, w.vcByte, bytes, w.size, w.revocationListIndex, w.listID);
      PutDocument(lib, cslStore.docs, key, StoredCsl(StripId(w.vcByte), w.size, w.revocationListIndex, w.listID));
      var stored := cslStore.Upsert(w, upsert);
      r := if stored then Ok(()) else Err(StoreWriteFailed);
    }

    // The document holds what an update makes of the stored credential.
    ghost predicate StoresUpdate(doc: Document, signer: Signer, vc: Credential, index: int, value: bool) {
      var bytes, opts := lib.codec.decode(vc.subject.encodedList), PrepareSigningOpts(signer, vc.proofs);
      && bytes.Some? && opts.Some?
      && StoresResigned(lib, doc, signer, opts.value, vc, lib.codec.encode(SetBytes(bytes.value, index, value)))
    }

    // UpdateVC
    method UpdateVC(status: Option<TypedID>, signer: Signer, value: bool, f: UpdateFaults)
      returns (r: Result<(), StatusError>)
      requires Valid() && signer.Faithful(lib)
      modifies cslStore
      ensures Valid()
      ensures (State(), r) == Update(old(State()), old(UpdateRequest(signer, status, value, f)))
      ensures forall key, index :: r.Ok? && Names(status, key, index) ==>
                && key in old(State().lists) && key in cslStore.docs
                && StoresUpdate(cslStore.docs[key], signer, old(StoredCredential(key)), index, value)
    {
      var check := CheckStatus(status);
      if check.Some? {
        return Err(check.value);
      }
      var fields := status.value.fields;
      if fields[STATUS_LIST_CREDENTIAL].NotText? {
        return Err(NotAString);
      }
      var key := fields[STATUS_LIST_CREDENTIAL].text;

      var wrapper := GetCSLWrapper(key, f.readListFails);
      if wrapper.Err? {
        return Err(wrapper.error);
      }
      var w := wrapper.value;
      assert GoodDocument(lib, key, cslStore.docs[key]);

      var signOpts := PrepareSigningOpts(signer, w.vc.value.proofs);
      if signOpts.None? {
        return Err(SigningFailed);
      }

      var decoded := BitString.DecodeBits(lib.codec, w.vc.value.subject.encodedList);
      var bitString := decoded.value;

      if fields[STATUS_LIST_INDEX].NotText? {
        return Err(Panic);
      }
      var index := Atoi(fields[STATUS_LIST_INDEX].text);
      if index.None? {
        return Err(IndexNotANumber);
      }
      var encodedList, bytes := WriteStatusBit(w.vc.value, bitString, index.value, value);
      if encodedList.None? {
        return Err(PositionInvalid);
      }
      r := SignAndStore(w, encodedList.value, signer, signOpts.value, key, bytes, f.upsert);
    }
  }

  // ---- The verifier ----

  class Verifier {
    // Revocation lists are fetched from the issuing service, which publishes them under their keys.
    const revocationVCGetter: Service

    constructor (revocationVCGetter: Service)
      ensures this.revocationVCGetter == revocationVCGetter
    {
      this.revocationVCGetter := revocationVCGetter;
    }

    method ValidateVCStatus(status: Option<TypedID>, issuer: string, fetchFails: bool)
      returns (r: Result<(), StatusError>)
      requires revocationVCGetter.Valid()
      ensures r == Validate(revocationVCGetter.State(), status, issuer, fetchFails)
    {
      var check := CheckStatus(status);
      if check.Some? {
        return Err(check.value);
      }
      var fields := status.value.fields;
      if fields[STATUS_LIST_INDEX].NotText? {
        return Err(Panic);
      }
      var statusListIndex := Atoi(fields[STATUS_LIST_INDEX].text);
      if statusListIndex.None? {
        return Err(IndexNotANumber);
      }
      if fields[STATUS_LIST_CREDENTIAL].NotText? {
        return Err(Panic);
      }

      var key := fields[STATUS_LIST_CREDENTIAL].text;
      var revocationVC := revocationVCGetter.GetRevocationListVC(key, fetchFails);
      if revocationVC.Err? {
        return Err(revocationVC.error);
      }
      assert GoodDocument(revocationVCGetter.lib, key, revocationVCGetter.cslStore.docs[key]);
      if revocationVC.value.issuer != issuer {
        return Err(IssuerMismatch);
      }
      if fields[STATUS_PURPOSE].NotText? {
        return Err(Panic);
      }
      if revocationVC.value.subject.statusPurpose != fields[STATUS_PURPOSE].text {
        return Err(PurposeMismatch);
      }

      var bitString := BitString.DecodeBits(revocationVCGetter.lib.codec, revocationVC.value.subject.encodedList);
      var bitSet := bitString.value.Get(statusListIndex.value);
      if bitSet.None? {
        return Err(PositionInvalid);
      }
      if bitSet.value {
        return Err(Revoked);
      }
      r := Ok(());
    }
  }
}
