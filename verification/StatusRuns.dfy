/**
 Whole runs of CreateStatusID and UpdateVC, one call after the other, over any mix of URLs and any
 pattern of store failures.
 */
module StatusRuns {
  import opened Wrappers
  import opened Text
  import opened BitStrings
  import opened StatusAnswers
  import opened StatusLists

  datatype Op = CreateOp(create: CreateReq) | UpdateOp(update: UpdateReq)

  datatype Response = Issued(slot: Slot) | Updated | Failed(error: StatusError)

  function Step(s: System, listSize: int, op: Op): (System, Response) {
    match op
    case CreateOp(req) =>
      var (s', r) := Create(s, listSize, req);
      (s', if r.Ok? then Issued(r.value) else Failed(r.error))
    case UpdateOp(req) =>
      var (s', r) := Update(s, req);
      (s', if r.Ok? then Updated else Failed(r.error))
  }

  function Run(listSize: int, ops: seq<Op>): System {
    if ops == [] then INITIAL else Step(Run(listSize, ops[..|ops| - 1]), listSize, ops[|ops| - 1]).0
  }

  function Answer(listSize: int, ops: seq<Op>, i: nat): Response
    requires i < |ops|
  {
    Step(Run(listSize, ops[..i]), listSize, ops[i]).1
  }

  lemma RunPrefix(listSize: int, ops: seq<Op>, i: nat)
    requires i < |ops|
    ensures Run(listSize, ops[..i + 1]) == Step(Run(listSize, ops[..i]), listSize, ops[i]).0
  {
    assert ops[..i + 1][..i] == ops[..i];
  }

  // ---- What every call keeps, whatever fails ----

  ghost predicate NamedAfterItsID(key: string, listID: int) {
    exists url: string :: key == ListKey(url, listID)
  }

  // A list is stored under its own number, which the counter has reached, and its Size is its next index.
  ghost predicate ListOk(latest: Option<int>, listSize: int, key: string, list: StatusList) {
    && latest.Some?
    && NamedAfterItsID(key, list.listID)
    && 1 <= list.listID <= latest.value
    && list.size == list.next >= 0
    && |list.bits| == Capacity(listSize)
  }

  ghost predicate Inv(s: System, listSize: int) {
    && (s.latest.Some? ==> s.latest.value >= 1)
    && forall key :: key in s.lists ==> ListOk(s.latest, listSize, key, s.lists[key])
  }

  // Slots below a list's next index have been given away, or lost to a failed call, for good.
  predicate Taken(s: System, slot: Slot) {
    slot.list in s.lists && 0 <= slot.index < s.lists[slot.list].next
  }

  // A list keeps its number, its issuer and its capacity, and its next index only moves up.
  predicate ListGrows(list: StatusList, list': StatusList) {
    && list'.listID == list.listID
    && list'.issuer == list.issuer
    && list'.next >= list.next
    && |list'.bits| == |list.bits|
  }

  // No list is ever lost, and the latest list ID never decreases.
  ghost predicate Grows(s: System, s': System) {
    && (s.latest.Some? ==> s'.latest.Some? && s.latest.value <= s'.latest.value)
    && forall key :: key in s.lists ==> key in s'.lists && ListGrows(s.lists[key], s'.lists[key])
  }

  lemma StoredUnderItsID(s: System, listSize: int, url: string, id: int)
    requires Inv(s, listSize) && ListKey(url, id) in s.lists
    ensures s.lists[ListKey(url, id)].listID == id
  {
    var key := ListKey(url, id);
    assert ListOk(s.latest, listSize, key, s.lists[key]);
    var u: string :| key == ListKey(u, s.lists[key].listID);
    ListKeyInjective(url, id, u, s.lists[key].listID);
  }

  lemma NoListsBeforeCounter(s: System, listSize: int, key: string)
    requires Inv(s, listSize) && s.latest.None?
    ensures key !in s.lists
  {
  }

  // What getLatestCSLWrapper hands over: a list with the latest number, fresh unless it is stored already.
  lemma ObtainFacts(s: System, listSize: int, req: CreateReq)
    requires Inv(s, listSize)
    ensures var (s1, got) := Obtain(s, listSize, req);
            && Inv(s1, listSize) && Grows(s, s1) && s1.lists == s.lists
            && (got.Err? ==> got.error in {StoreReadFailed, StoreWriteFailed, SigningFailed})
            && (got.Ok? ==>
                  var Obtained(key, list) := got.value;
                  && s1.latest == Some(list.listID)
                  && key == ListKey(req.url, list.listID)
                  && ListOk(s1.latest, listSize, key, list)
                  && (key in s.lists ==> list == s.lists[key])
                  && (key !in s.lists ==> list == FreshList(listSize, list.listID, req.did)))
  {
    var (s1, got) := Obtain(s, listSize, req);
    if s.latest.Some? {
      if ListKey(req.url, s.latest.value) in s.lists {
        StoredUnderItsID(s, listSize, req.url, s.latest.value);
      }
      assert NamedAfterItsID(ListKey(req.url, s.latest.value), s.latest.value);
    } else {
      NoListsBeforeCounter(s, listSize, ListKey(req.url, 1));
      assert NamedAfterItsID(ListKey(req.url, 1), 1);
    }
  }

  lemma PutKeeps(s: System, listSize: int, key: string, list: StatusList)
    requires Inv(s, listSize) && ListOk(s.latest, listSize, key, list)
    requires key in s.lists ==> ListGrows(s.lists[key], list)
    ensures var s' := s.(lists := s.lists[key := list]); Inv(s', listSize) && Grows(s, s')
  {
  }

  lemma CounterKeeps(s: System, listSize: int, id: int)
    requires Inv(s, listSize) && id >= 1 && (s.latest.Some? ==> s.latest.value <= id)
    ensures var s' := s.(latest := Some(id)); Inv(s', listSize) && Grows(s, s')
  {
    var s' := s.(latest := Some(id));
    forall key | key in s'.lists ensures ListOk(s'.latest, listSize, key, s'.lists[key]) {
      assert ListOk(s.latest, listSize, key, s.lists[key]);
    }
  }

  // What a call leaves behind: nothing, the list stored, or the counter moved on as well.
  lemma CommitStates(s: System, listSize: int, got: Obtained, upsert: WriteOutcome, updateLatest: WriteOutcome)
    ensures var (s', r) := Commit(s, listSize, got, upsert, updateLatest);
            var list := Counted(got.list);
            var s1 := s.(lists := s.lists[got.key := list]);
            && (s' == s || s' == s1 || s' == s1.(latest := Some(list.listID + 1)))
            && (r.Ok? ==> r.value == Slot(got.key, got.list.next) && s'.lists == s1.lists)
  {
  }

  lemma CommitKeeps(s: System, listSize: int, got: Obtained, upsert: WriteOutcome, updateLatest: WriteOutcome)
    requires Inv(s, listSize) && ListOk(s.latest, listSize, got.key, got.list) && s.latest == Some(got.list.listID)
    requires got.key in s.lists ==> got.list == s.lists[got.key]
    requires got.key !in s.lists ==> got.list.next == 0
    ensures var (s', r) := Commit(s, listSize, got, upsert, updateLatest);
            && Inv(s', listSize)
            && Grows(s, s')
            && (r.Ok? ==> !Taken(s, r.value) && Taken(s', r.value))
  {
    var list := Counted(got.list);
    var s1 := s.(lists := s.lists[got.key := list]);
    CommitStates(s, listSize, got, upsert, updateLatest);
    PutKeeps(s, listSize, got.key, list);
    CounterKeeps(s1, listSize, list.listID + 1);
    GrowsToItself(s);
    GrowsOn(s, s1, s1.(latest := Some(list.listID + 1)));
  }

  lemma CreateKeeps(s: System, listSize: int, req: CreateReq)
    requires Inv(s, listSize)
    ensures var (s', r) := Create(s, listSize, req);
            && Inv(s', listSize)
            && Grows(s, s')
            && (r.Ok? ==> !Taken(s, r.value) && Taken(s', r.value))
  {
    ObtainFacts(s, listSize, req);
    var (s1, got) := Obtain(s, listSize, req);
    if got.Ok? {
      CommitKeeps(s1, listSize, got.value, req.upsert, req.updateLatest);
    }
  }

  lemma UpdateKeeps(s: System, listSize: int, req: UpdateReq)
    requires Inv(s, listSize)
    ensures Inv(Update(s, req).0, listSize) && Grows(s, Update(s, req).0)
    ensures Update(s, req).0.latest == s.latest && Update(s, req).0.lists.Keys == s.lists.Keys
  {
    var s' := Update(s, req).0;
    if s' != s {
      var key := req.status.value.fields[STATUS_LIST_CREDENTIAL].text;
      assert ListOk(s.latest, listSize, key, s.lists[key]);
      PutKeeps(s, listSize, key, s'.lists[key]);
    }
  }

  lemma StepKeeps(s: System, listSize: int, op: Op)
    requires Inv(s, listSize)
    ensures Inv(Step(s, listSize, op).0, listSize) && Grows(s, Step(s, listSize, op).0)
  {
    match op
    case CreateOp(req) => CreateKeeps(s, listSize, req);
    case UpdateOp(req) => UpdateKeeps(s, listSize, req);
  }

  // Every reachable state is consistent, with any failures and any list size.
  lemma {:induction false} RunKeepsInv(listSize: int, ops: seq<Op>)
    ensures Inv(Run(listSize, ops), listSize)
  {
    if ops != [] {
      RunKeepsInv(listSize, ops[..|ops| - 1]);
      StepKeeps(Run(listSize, ops[..|ops| - 1]), listSize, ops[|ops| - 1]);
    }
  }

  lemma GrowsToItself(s: System)
    ensures Grows(s, s)
  {
  }

  lemma GrowsOn(s0: System, s1: System, s2: System)
    requires Grows(s0, s1) && Grows(s1, s2)
    ensures Grows(s0, s2)
  {
    forall key | key in s0.lists ensures key in s2.lists && ListGrows(s0.lists[key], s2.lists[key]) {
      assert ListGrows(s0.lists[key], s1.lists[key]) && ListGrows(s1.lists[key], s2.lists[key]);
    }
  }

  // Between any two moments of a run nothing is forgotten and the latest list ID never decreases.
  lemma {:induction false} RunGrows(listSize: int, ops: seq<Op>, i: nat, j: nat)
    requires i <= j <= |ops|
    ensures Grows(Run(listSize, ops[..i]), Run(listSize, ops[..j]))
    decreases j - i
  {
    if i < j {
      RunGrows(listSize, ops, i, j - 1);
      RunPrefix(listSize, ops, j - 1);
      RunKeepsInv(listSize, ops[..j - 1]);
      StepKeeps(Run(listSize, ops[..j - 1]), listSize, ops[j - 1]);
      GrowsOn(Run(listSize, ops[..i]), Run(listSize, ops[..j - 1]), Run(listSize, ops[..j]));
    } else {
      GrowsToItself(Run(listSize, ops[..i]));
    }
  }

  // ---- Uniqueness ----

  // No two successful calls return the same slot, whatever failed in between.
  lemma SlotsAreUnique(listSize: int, ops: seq<Op>, i: nat, j: nat)
    requires i < j < |ops|
    requires Answer(listSize, ops, i).Issued? && Answer(listSize, ops, j).Issued?
    ensures Answer(listSize, ops, i).slot != Answer(listSize, ops, j).slot
  {
    var slot := Answer(listSize, ops, i).slot;
    RunKeepsInv(listSize, ops[..i]);
    CreateKeeps(Run(listSize, ops[..i]), listSize, ops[i].create);
    RunPrefix(listSize, ops, i);
    RunGrows(listSize, ops, i + 1, j);
    assert Taken(Run(listSize, ops[..j]), slot);
    RunKeepsInv(listSize, ops[..j]);
    CreateKeeps(Run(listSize, ops[..j]), listSize, ops[j].create);
  }

  // ---- Revocation ----

  // The slot an update names, if its status is well formed; "+7" and "007" name slot 7.
  function Target(req: UpdateReq): Option<Slot> {
    if CheckStatus(req.status).Some? then None
    else
      var fields := req.status.value.fields;
      if fields[STATUS_LIST_CREDENTIAL].NotText? || fields[STATUS_LIST_INDEX].NotText? then None
      else
        var index := Atoi(fields[STATUS_LIST_INDEX].text);
        if index.None? then None else Some(Slot(fields[STATUS_LIST_CREDENTIAL].text, index.value))
  }

  // The update was stored, even if the store then reported an error.
  predicate TookEffect(s: System, req: UpdateReq) {
    var r := Update(s, req).1;
    r.Ok? || (r.error == StoreWriteFailed && req.upsert == FailedApplied)
  }

  // The value passed by the last update of this slot that was stored.
  function LastMark(listSize: int, ops: seq<Op>, slot: Slot): Option<bool> {
    if ops == [] then None
    else
      var before, op := ops[..|ops| - 1], ops[|ops| - 1];
      if op.UpdateOp? && Target(op.update) == Some(slot) && TookEffect(Run(listSize, before), op.update)
      then Some(op.update.value)
      else LastMark(listSize, before, slot)
  }

  // An allocation disturbs no bit, and a list it adds has none set.
  lemma CreateBits(s: System, listSize: int, req: CreateReq, key: string)
    requires Inv(s, listSize) && key in Create(s, listSize, req).0.lists
    ensures Create(s, listSize, req).0.lists[key].bits ==
            if key in s.lists then s.lists[key].bits else seq(Capacity(listSize), _ => false)
  {
    ObtainFacts(s, listSize, req);
  }

  // An update sets the bit it names to the value passed, if it is stored, and disturbs no other.
  lemma UpdateBits(s: System, listSize: int, req: UpdateReq, key: string)
    requires Inv(s, listSize) && key in s.lists
    ensures key in Update(s, req).0.lists
    ensures var bits, bits' := s.lists[key].bits, Update(s, req).0.lists[key].bits;
            && |bits'| == |bits|
            && forall i :: 0 <= i < |bits| ==>
                 bits'[i] == if Target(req) == Some(Slot(key, i)) && TookEffect(s, req) then req.value else bits[i]
  {
  }

  // What one call of either kind does to one bit.
  lemma StepBits(s: System, listSize: int, op: Op, key: string, i: nat)
    requires Inv(s, listSize)
    requires key in Step(s, listSize, op).0.lists && i < Capacity(listSize)
    ensures |Step(s, listSize, op).0.lists[key].bits| == Capacity(listSize)
    ensures var bit := Step(s, listSize, op).0.lists[key].bits[i];
            if op.UpdateOp? && Target(op.update) == Some(Slot(key, i)) && TookEffect(s, op.update)
            then bit == op.update.value
            else if key in s.lists then |s.lists[key].bits| == Capacity(listSize) && bit == s.lists[key].bits[i]
            else bit == false
  {
    assert key in s.lists ==> ListOk(s.latest, listSize, key, s.lists[key]);
    match op
    case CreateOp(req) =>
      CreateBits(s, listSize, req, key);
    case UpdateOp(req) =>
      UpdateKeeps(s, listSize, req);
      UpdateBits(s, listSize, req, key);
  }

  lemma {:induction false} UnlistedUnmarked(listSize: int, ops: seq<Op>, slot: Slot)
    requires slot.list !in Run(listSize, ops).lists
    ensures LastMark(listSize, ops, slot) == None
  {
    if ops != [] {
      var before := ops[..|ops| - 1];
      RunKeepsInv(listSize, before);
      StepKeeps(Run(listSize, before), listSize, ops[|ops| - 1]);
      UnlistedUnmarked(listSize, before, slot);
    }
  }

  // After any run, each bit of each list is the last stored mark of its slot.
  lemma {:induction false} BitsAreLastMarks(listSize: int, ops: seq<Op>, key: string, i: nat)
    requires key in Run(listSize, ops).lists && i < Capacity(listSize)
    ensures |Run(listSize, ops).lists[key].bits| == Capacity(listSize)
    ensures Run(listSize, ops).lists[key].bits[i] == (LastMark(listSize, ops, Slot(key, i)) == Some(true))
  {
    if ops != [] {
      var before := ops[..|ops| - 1];
      RunKeepsInv(listSize, before);
      StepBits(Run(listSize, before), listSize, ops[|ops| - 1], key, i);
      if key in Run(listSize, before).lists {
        BitsAreLastMarks(listSize, before, key, i);
      } else {
        UnlistedUnmarked(listSize, before, Slot(key, i));
      }
    }
  }

  lemma StatusOfIsWellFormed(slot: Slot)
    requires MIN_INT <= slot.index <= MAX_INT
    ensures CheckStatus(Some(StatusOf(slot))) == None
    ensures StatusOf(slot).fields[STATUS_LIST_INDEX].Text?
    ensures Atoi(StatusOf(slot).fields[STATUS_LIST_INDEX].text) == Some(slot.index)
    ensures StatusOf(slot).fields[STATUS_LIST_CREDENTIAL] == Text(slot.list)
    ensures StatusOf(slot).fields[STATUS_PURPOSE] == Text(REVOCATION)
  {
    AtoiOfItoa(slot.index);
    assert STATUS_LIST_INDEX[6] != STATUS_PURPOSE[6];
    assert STATUS_LIST_CREDENTIAL[6] != STATUS_PURPOSE[6];
    assert |STATUS_LIST_INDEX| != |STATUS_LIST_CREDENTIAL|;
  }

  // The status handed out for a slot names that slot, for the purpose of revocation.
  lemma StatusNamesSlot(slot: Slot)
    requires MIN_INT <= slot.index <= MAX_INT
    ensures Names(Some(StatusOf(slot)), slot.list, slot.index)
    ensures StatusOf(slot).fields["statusPurpose"] == Text("revocation")
  {
    StatusOfIsWellFormed(slot);
  }

  // The verifier's answer for any slot given away in any run, failures included, whoever is taken for the issuer.
  // (An index is a Go int.)
  lemma AnswerToIssuer(listSize: int, ops: seq<Op>, slot: Slot, issuer: string)
    requires Taken(Run(listSize, ops), slot) && slot.index <= MAX_INT
    ensures var s := Run(listSize, ops);
            Validate(s, Some(StatusOf(slot)), issuer, false) ==
            if issuer != s.lists[slot.list].issuer then Err(IssuerMismatch)
            else if slot.index >= Capacity(listSize) then Err(PositionInvalid)
            else if LastMark(listSize, ops, slot) == Some(true) then Err(Revoked)
            else Ok(())
  {
    StatusOfIsWellFormed(slot);
    RunKeepsInv(listSize, ops);
    assert ListOk(Run(listSize, ops).latest, listSize, slot.list, Run(listSize, ops).lists[slot.list]);
    if slot.index < Capacity(listSize) {
      BitsAreLastMarks(listSize, ops, slot.list, slot.index);
    }
  }

  // ---- Whose lists they are ----

  // All statuses under this URL are asked for by one DID.
  predicate OneIssuer(ops: seq<Op>, url: string, did: string) {
    forall op :: op in ops && op.CreateOp? && op.create.url == url ==> op.create.did == did
  }

  lemma StepIssuer(s: System, listSize: int, op: Op, url: string, id: int, did: string)
    requires Inv(s, listSize) && ListKey(url, id) in Step(s, listSize, op).0.lists
    requires ListKey(url, id) in s.lists ==> s.lists[ListKey(url, id)].issuer == did
    requires op.CreateOp? && op.create.url == url ==> op.create.did == did
    ensures Step(s, listSize, op).0.lists[ListKey(url, id)].issuer == did
  {
    var key := ListKey(url, id);
    StepKeeps(s, listSize, op);
    if key !in s.lists {
      match op
      case CreateOp(req) =>
        var first := FirstStatusNamesIssuer(s, listSize, req, key);
        ListKeyInjective(url, id, req.url, first);
      case UpdateOp(req) =>
        UpdateKeeps(s, listSize, req);
    }
  }

  // Then it is the issuer of every list under this URL.
  lemma {:induction false} ListIssuer(listSize: int, ops: seq<Op>, url: string, id: int, did: string)
    requires OneIssuer(ops, url, did) && ListKey(url, id) in Run(listSize, ops).lists
    ensures Run(listSize, ops).lists[ListKey(url, id)].issuer == did
  {
    if ops != [] {
      var before, op := ops[..|ops| - 1], ops[|ops| - 1];
      RunKeepsInv(listSize, before);
      if ListKey(url, id) in Run(listSize, before).lists { ListIssuer(listSize, before, url, id, did); }
      assert op in ops;
      StepIssuer(Run(listSize, before), listSize, op, url, id, did);
    }
  }

  // For any slot given away in any run, failures included, the verifier that is told the DID behind the URL
  // reports it revoked exactly when its last stored update passed true, and refuses it only past the end of
  // the bit string.
  lemma RevocationIsExact(listSize: int, ops: seq<Op>, url: string, did: string, id: int, index: int)
    requires OneIssuer(ops, url, did) && Taken(Run(listSize, ops), Slot(ListKey(url, id), index)) && index <= MAX_INT
    ensures var slot := Slot(ListKey(url, id), index);
            Validate(Run(listSize, ops), Some(StatusOf(slot)), did, false) ==
            if index >= Capacity(listSize) then Err(PositionInvalid)
            else if LastMark(listSize, ops, slot) == Some(true) then Err(Revoked)
            else Ok(())
  {
    ListIssuer(listSize, ops, url, id, did);
    AnswerToIssuer(listSize, ops, Slot(ListKey(url, id), index), did);
  }

  // And a credential of anyone else that points at the slot is turned away, revoked or not.
  lemma ForeignIssuerIsRefused(listSize: int, ops: seq<Op>, url: string, did: string, id: int, index: int,
                               other: string)
    requires OneIssuer(ops, url, did) && Taken(Run(listSize, ops), Slot(ListKey(url, id), index)) && index <= MAX_INT
    requires other != did
    ensures Validate(Run(listSize, ops), Some(StatusOf(Slot(ListKey(url, id), index))), other, false)
            == Err(IssuerMismatch)
  {
    ListIssuer(listSize, ops, url, id, did);
    AnswerToIssuer(listSize, ops, Slot(ListKey(url, id), index), other);
  }

  // ---- The bound on a list, and exactly when a call loses it ----

  predicate HasRoom(latest: Option<int>, listSize: int, list: StatusList) {
    list.size <= listSize && (latest == Some(list.listID) ==> list.size < listSize)
  }

  // No list outgrows listSize, and the lists at the latest ID still have room.
  ghost predicate Bounded(s: System, listSize: int) {
    forall key :: key in s.lists ==> HasRoom(s.latest, listSize, s.lists[key])
  }

  // The call stores a full list without moving the counter on to the next one.
  predicate LosesRollover(s: System, listSize: int, req: CreateReq) {
    var got := Obtain(s, listSize, req).1;
    && got.Ok?
    && got.value.list.size + 1 == listSize
    && req.upsert.Applied()
    && !(req.upsert == Done && req.updateLatest.Applied())
  }

  // A call keeps the bound if and only if it does not lose the rollover of a list it fills.
  lemma BoundKeptIff(s: System, listSize: int, req: CreateReq)
    requires listSize >= 1 && Inv(s, listSize) && Bounded(s, listSize)
    ensures Bounded(Create(s, listSize, req).0, listSize) <==> !LosesRollover(s, listSize, req)
  {
    ObtainFacts(s, listSize, req);
    var (s1, got) := Obtain(s, listSize, req);
    var s' := Create(s, listSize, req).0;
    if LosesRollover(s, listSize, req) {
      assert !HasRoom(s'.latest, listSize, s'.lists[got.value.key]);
    } else {
      assert got.Ok? ==> HasRoom(s1.latest, listSize, got.value.list);
      forall k | k in s'.lists ensures HasRoom(s'.latest, listSize, s'.lists[k]) {
        if k in s.lists {
          assert ListOk(s.latest, listSize, k, s.lists[k]) && HasRoom(s.latest, listSize, s.lists[k]);
        }
      }
    }
  }

  // One lost counter write is enough: with room for a single status, list 1 hands out index 1.
  lemma LostRolloverOverfills(url: string, did: string)
    ensures var lost := CreateReq(url, did, true, false, Done, false, Done, FailedUnapplied);
            var ops := [CreateOp(lost), CreateOp(lost.(updateLatest := Done))];
            && Answer(1, ops, 0) == Failed(StoreWriteFailed)
            && Answer(1, ops, 1) == Issued(Slot(ListKey(url, 1), 1))
            && !Bounded(Run(1, ops), 1)
  {
    var lost := CreateReq(url, did, true, false, Done, false, Done, FailedUnapplied);
    var ops := [CreateOp(lost), CreateOp(lost.(updateLatest := Done))];
    var key := ListKey(url, 1);
    assert ops[..1] == [CreateOp(lost)] && ops[..0] == [CreateOp(lost)][..0] == [];
    var s1, s2 := Run(1, ops[..1]), Run(1, ops);
    assert Run(1, [CreateOp(lost)][..0]) == INITIAL;
    assert s1 == Create(INITIAL, 1, lost).0;
    assert s2 == Create(s1, 1, lost.(updateLatest := Done)).0;
    assert !HasRoom(s2.latest, 1, s2.lists[key]);
  }

  // ---- Runs without failures ----

  predicate CreateIsFaultless(req: CreateReq) {
    && req.built && !req.readLatestFails && !req.readListFails
    && req.createLatest == req.upsert == req.updateLatest == Done
  }

  predicate Faultless(op: Op) {
    match op
    case CreateOp(req) => CreateIsFaultless(req)
    case UpdateOp(req) => !req.readListFails && req.prepared && req.signed && req.upsert == Done
  }

  predicate AllFaultless(ops: seq<Op>) {
    forall op :: op in ops ==> Faultless(op)
  }

  lemma UpdateBounded(s: System, listSize: int, req: UpdateReq)
    requires Bounded(s, listSize)
    ensures Bounded(Update(s, req).0, listSize)
  {
    var s' := Update(s, req).0;
    forall k | k in s'.lists ensures HasRoom(s'.latest, listSize, s'.lists[k]) {
      assert k in s.lists && HasRoom(s.latest, listSize, s.lists[k]);
    }
  }

  lemma FaultlessPrefix(ops: seq<Op>)
    requires AllFaultless(ops) && ops != []
    ensures AllFaultless(ops[..|ops| - 1]) && Faultless(ops[|ops| - 1])
  {
    assert ops[|ops| - 1] in ops;
    assert forall op :: op in ops[..|ops| - 1] ==> op in ops;
  }

  lemma {:induction false} FaultlessRunIsBounded(listSize: int, ops: seq<Op>)
    requires listSize >= 1 && AllFaultless(ops)
    ensures Inv(Run(listSize, ops), listSize) && Bounded(Run(listSize, ops), listSize)
  {
    RunKeepsInv(listSize, ops);
    if ops != [] {
      var before, op := ops[..|ops| - 1], ops[|ops| - 1];
      FaultlessPrefix(ops);
      FaultlessRunIsBounded(listSize, before);
      match op
      case CreateOp(req) => BoundKeptIff(Run(listSize, before), listSize, req);
      case UpdateOp(req) => UpdateBounded(Run(listSize, before), listSize, req);
    }
  }

  // Without failures every creation succeeds, and so does every update of a slot given away before.
  lemma FaultlessCallsSucceed(listSize: int, ops: seq<Op>, op: Op)
    requires 1 <= listSize <= MAX_INT && AllFaultless(ops) && Faultless(op)
    ensures op.CreateOp? ==> Step(Run(listSize, ops), listSize, op).1.Issued?
    ensures forall slot :: op.UpdateOp? && op.update.status == Some(StatusOf(slot)) && Taken(Run(listSize, ops), slot)
              ==> Step(Run(listSize, ops), listSize, op).1 == Updated && Target(op.update) == Some(slot)
  {
    FaultlessRunIsBounded(listSize, ops);
    var s := Run(listSize, ops);
    forall slot | op.UpdateOp? && op.update.status == Some(StatusOf(slot)) && Taken(s, slot)
      ensures Step(s, listSize, op).1 == Updated && Target(op.update) == Some(slot)
    {
      assert ListOk(s.latest, listSize, slot.list, s.lists[slot.list]);
      StatusOfIsWellFormed(slot);
    }
  }

  // The service's promise when nothing fails: for every slot given away, the verifier that is told the DID behind
  // the URL reports "revoked" exactly when the last update of that slot passed true, and accepts it otherwise.
  lemma RevokedIffLastUpdateSaidSo(listSize: int, ops: seq<Op>, url: string, did: string, id: int, index: int)
    requires 1 <= listSize <= MAX_INT && AllFaultless(ops) && OneIssuer(ops, url, did)
    requires Taken(Run(listSize, ops), Slot(ListKey(url, id), index))
    ensures var slot := Slot(ListKey(url, id), index);
            Validate(Run(listSize, ops), Some(StatusOf(slot)), did, false) ==
            if LastMark(listSize, ops, slot) == Some(true) then Err(Revoked) else Ok(())
  {
    var key := ListKey(url, id);
    FaultlessRunIsBounded(listSize, ops);
    assert ListOk(Run(listSize, ops).latest, listSize, key, Run(listSize, ops).lists[key]);
    assert HasRoom(Run(listSize, ops).latest, listSize, Run(listSize, ops).lists[key]);
    RevocationIsExact(listSize, ops, url, did, id, index);
  }

  ghost predicate WasIssued(listSize: int, ops: seq<Op>, slot: Slot) {
    exists i :: 0 <= i < |ops| && Answer(listSize, ops, i) == Issued(slot)
  }

  lemma IssuedEarlierOrNow(listSize: int, ops: seq<Op>, slot: Slot)
    requires ops != []
    ensures WasIssued(listSize, ops, slot) <==>
            || WasIssued(listSize, ops[..|ops| - 1], slot)
            || Answer(listSize, ops, |ops| - 1) == Issued(slot)
  {
    var before, n := ops[..|ops| - 1], |ops| - 1;
    forall i: nat | i < n ensures Answer(listSize, before, i) == Answer(listSize, ops, i) {
      SameAnswer(listSize, ops, i);
    }
  }

  lemma SameAnswer(listSize: int, ops: seq<Op>, i: nat)
    requires i < |ops| - 1
    ensures Answer(listSize, ops[..|ops| - 1], i) == Answer(listSize, ops, i)
  {
    assert ops[..|ops| - 1][..i] == ops[..i];
  }

  // The slots given away so far are exactly the indices below each list's Size.
  lemma {:induction false} TakenMeansIssued(listSize: int, ops: seq<Op>, slot: Slot)
    requires AllFaultless(ops)
    ensures Taken(Run(listSize, ops), slot) <==> WasIssued(listSize, ops, slot)
  {
    if ops != [] {
      var before := ops[..|ops| - 1];
      FaultlessPrefix(ops);
      TakenMeansIssued(listSize, before, slot);
      TakenStep(listSize, before, ops[|ops| - 1], slot);
      IssuedEarlierOrNow(listSize, ops, slot);
    }
  }

  // A faultless call takes the slot it returns and no other.
  lemma CreateTakes(s: System, listSize: int, req: CreateReq, slot: Slot)
    requires Inv(s, listSize) && CreateIsFaultless(req)
    ensures var (s', r) := Create(s, listSize, req);
            Taken(s', slot) <==> Taken(s, slot) || r == Ok(slot)
  {
    ObtainFacts(s, listSize, req);
    var (s', r) := Create(s, listSize, req);
    var Obtained(key, list) := Obtain(s, listSize, req).1.value;
    assert s'.lists == s.lists[key := Counted(list)];
    assert r == Ok(Slot(key, list.next));
  }

  lemma TakenStep(listSize: int, before: seq<Op>, op: Op, slot: Slot)
    requires Faultless(op)
    ensures var s := Run(listSize, before);
            var (s', r) := Step(s, listSize, op);
            Taken(s', slot) <==> Taken(s, slot) || r == Issued(slot)
  {
    RunKeepsInv(listSize, before);
    match op
    case CreateOp(req) =>
      CreateTakes(Run(listSize, before), listSize, req, slot);
    case UpdateOp(req) =>
      UpdateNextSame(Run(listSize, before), req);
  }

  lemma UpdateNextSame(s: System, req: UpdateReq)
    ensures Update(s, req).0.lists.Keys == s.lists.Keys
    ensures forall key :: key in s.lists ==> Update(s, req).0.lists[key].next == s.lists[key].next
  {
  }

  // ---- A list that has lost its rollover ----

  // The counter stands at list id, and this URL's is full, or fuller: its next index is n.
  predicate Stranded(s: System, listSize: int, url: string, id: int, n: nat) {
    && s.latest == Some(id)
    && ListKey(url, id) in s.lists
    && s.lists[ListKey(url, id)].size == s.lists[ListKey(url, id)].next == n >= listSize
  }

  lemma LosingStrands(s: System, listSize: int, req: CreateReq) returns (id: int)
    requires listSize >= 1 && Inv(s, listSize) && LosesRollover(s, listSize, req)
    ensures Stranded(Create(s, listSize, req).0, listSize, req.url, id, listSize)
  {
    ObtainFacts(s, listSize, req);
    id := Obtain(s, listSize, req).1.value.list.listID;
  }

  // A stranded list hands out the next index as if nothing had happened, and stays stranded.
  lemma StrandedCreate(s: System, listSize: int, url: string, id: int, n: nat, req: CreateReq)
    requires Stranded(s, listSize, url, id, n) && CreateIsFaultless(req) && req.url == url
    ensures var (s', r) := Create(s, listSize, req);
            r == Ok(Slot(ListKey(url, id), n)) && Stranded(s', listSize, url, id, n + 1)
  {
  }

  lemma StrandedStep(listSize: int, ops: seq<Op>, url: string, id: int, n: nat, req: CreateReq)
    requires Stranded(Run(listSize, ops), listSize, url, id, n) && CreateIsFaultless(req) && req.url == url
    ensures Stranded(Run(listSize, ops + [CreateOp(req)]), listSize, url, id, n + 1)
    ensures Answer(listSize, ops + [CreateOp(req)], |ops|) == Issued(Slot(ListKey(url, id), n))
  {
    var all := ops + [CreateOp(req)];
    assert all[..|ops|] == ops && all[..|ops| + 1] == all;
    RunPrefix(listSize, all, |ops|);
    StrandedCreate(Run(listSize, ops), listSize, url, id, n, req);
  }

  function Repeat(op: Op, m: nat): (ops: seq<Op>)
    ensures |ops| == m && forall i :: 0 <= i < m ==> ops[i] == op
  {
    seq(m, _ => op)
  }

  lemma {:induction false} StrandedRun(listSize: int, ops: seq<Op>, url: string, id: int, n: nat, req: CreateReq,
                                       m: nat)
    requires Stranded(Run(listSize, ops), listSize, url, id, n) && CreateIsFaultless(req) && req.url == url
    ensures Stranded(Run(listSize, ops + Repeat(CreateOp(req), m)), listSize, url, id, n + m)
  {
    if m == 0 {
      assert ops + Repeat(CreateOp(req), 0) == ops;
    } else {
      StrandedRun(listSize, ops, url, id, n, req, m - 1);
      StrandedStep(listSize, ops + Repeat(CreateOp(req), m - 1), url, id, n + m - 1, req);
      assert ops + Repeat(CreateOp(req), m - 1) + [CreateOp(req)] == ops + Repeat(CreateOp(req), m);
    }
  }

  lemma LosingRun(listSize: int, ops: seq<Op>, lost: CreateReq) returns (id: int)
    requires listSize >= 1 && LosesRollover(Run(listSize, ops), listSize, lost)
    ensures Stranded(Run(listSize, ops + [CreateOp(lost)]), listSize, lost.url, id, listSize)
  {
    var all := ops + [CreateOp(lost)];
    assert all[..|ops|] == ops && all[..|ops| + 1] == all;
    RunPrefix(listSize, all, |ops|);
    RunKeepsInv(listSize, ops);
    id := LosingStrands(Run(listSize, ops), listSize, lost);
  }

  // The verifier rejects the position of this slot, for its own issuer.
  predicate RejectedPosition(s: System, slot: Slot) {
    slot.list in s.lists && Validate(s, Some(StatusOf(slot)), s.lists[slot.list].issuer, false) == Err(PositionInvalid)
  }

  // Once it has given away all bits, the next creation returns a slot that the verifier rejects.
  lemma PastTheEnd(listSize: int, ops: seq<Op>, url: string, id: int, n: nat, req: CreateReq)
    requires Stranded(Run(listSize, ops), listSize, url, id, n) && CreateIsFaultless(req) && req.url == url
    requires Capacity(listSize) <= n <= MAX_INT
    ensures var all, slot := ops + [CreateOp(req)], Slot(ListKey(url, id), n);
            var s := Run(listSize, all);
            && Answer(listSize, all, |ops|) == Issued(slot)
            && RejectedPosition(s, slot)
  {
    StrandedStep(listSize, ops, url, id, n, req);
    var all, slot := ops + [CreateOp(req)], Slot(ListKey(url, id), n);
    AnswerToIssuer(listSize, all, slot, Run(listSize, all).lists[slot.list].issuer);
  }

  // One lost rollover in any run, and enough creations without any failure issue a status that the verifier
  // rejects: its index is past the end of the bit string. (An index is a Go int.)
  lemma LostRolloverIsRejected(listSize: int, ops: seq<Op>, lost: CreateReq, req: CreateReq)
    returns (all: seq<Op>, slot: Slot)
    requires listSize >= 1 && Capacity(listSize) <= MAX_INT
    requires LosesRollover(Run(listSize, ops), listSize, lost) && CreateIsFaultless(req) && req.url == lost.url
    ensures all == ops + [CreateOp(lost)] + Repeat(CreateOp(req), Capacity(listSize) - listSize) + [CreateOp(req)]
    ensures Answer(listSize, all, |all| - 1) == Issued(slot) && slot.index == Capacity(listSize)
    ensures RejectedPosition(Run(listSize, all), slot)
  {
    var m := Capacity(listSize) - listSize;
    var id := LosingRun(listSize, ops, lost);
    StrandedRun(listSize, ops + [CreateOp(lost)], lost.url, id, listSize, req, m);
    var full := ops + [CreateOp(lost)] + Repeat(CreateOp(req), m);
    PastTheEnd(listSize, full, lost.url, id, Capacity(listSize), req);
    all, slot := full + [CreateOp(req)], Slot(ListKey(lost.url, id), Capacity(listSize));
    assert |all| - 1 == |full|;
  }

  // ---- Counting ----

  ghost function TotalSize(lists: map<string, StatusList>): int
    decreases |lists|
  {
    if lists == map[] then 0
    else var key :| key in lists; lists[key].size + TotalSize(lists - {key})
  }

  lemma {:induction false} TotalSizeSplit(lists: map<string, StatusList>, key: string)
    requires key in lists
    ensures TotalSize(lists) == lists[key].size + TotalSize(lists - {key})
    decreases |lists|
  {
    var k :| k in lists && TotalSize(lists) == lists[k].size + TotalSize(lists - {k});
    if k != key {
      TotalSizeSplit(lists - {k}, key);
      TotalSizeSplit(lists - {key}, k);
      assert lists - {k} - {key} == lists - {key} - {k};
    }
  }

  lemma TotalSizeUpdate(lists: map<string, StatusList>, key: string, list: StatusList)
    ensures TotalSize(lists[key := list]) ==
            TotalSize(lists) + list.size - (if key in lists then lists[key].size else 0)
  {
    var lists' := lists[key := list];
    TotalSizeSplit(lists', key);
    if key in lists {
      TotalSizeSplit(lists, key);
      assert lists' - {key} == lists - {key};
    } else {
      assert lists' - {key} == lists;
    }
  }

  function IssuedCount(listSize: int, ops: seq<Op>): nat {
    if ops == [] then 0
    else
      var before := ops[..|ops| - 1];
      IssuedCount(listSize, before) +
      if Step(Run(listSize, before), listSize, ops[|ops| - 1]).1.Issued? then 1 else 0
  }

  lemma CreateTotal(s: System, listSize: int, req: CreateReq)
    requires Inv(s, listSize) && CreateIsFaultless(req)
    ensures Create(s, listSize, req).1.Ok?
    ensures TotalSize(Create(s, listSize, req).0.lists) == TotalSize(s.lists) + 1
  {
    ObtainFacts(s, listSize, req);
    var Obtained(key, list) := Obtain(s, listSize, req).1.value;
    var list' := Counted(list);
    TotalSizeUpdate(s.lists, key, list');
    assert Create(s, listSize, req).0.lists == s.lists[key := list'];
  }

  lemma UpdateTotal(s: System, req: UpdateReq)
    ensures TotalSize(Update(s, req).0.lists) == TotalSize(s.lists)
  {
    var s' := Update(s, req).0;
    if s'.lists != s.lists {
      var key := req.status.value.fields[STATUS_LIST_CREDENTIAL].text;
      assert s'.lists == s.lists[key := s'.lists[key]] && s'.lists[key].size == s.lists[key].size;
      TotalSizeUpdate(s.lists, key, s'.lists[key]);
    }
  }

  // Without failures, the Sizes of all lists add up to the number of statuses given away.
  lemma {:induction false} SizesCountStatuses(listSize: int, ops: seq<Op>)
    requires AllFaultless(ops)
    ensures TotalSize(Run(listSize, ops).lists) == IssuedCount(listSize, ops)
  {
    if ops != [] {
      var before := ops[..|ops| - 1];
      FaultlessPrefix(ops);
      SizesCountStatuses(listSize, before);
      RunKeepsInv(listSize, before);
      match ops[|ops| - 1]
      case CreateOp(req) => CreateTotal(Run(listSize, before), listSize, req);
      case UpdateOp(req) => UpdateTotal(Run(listSize, before), req);
    }
  }

  // ---- One URL: the k-th status is index k mod listSize of list 1 + k div listSize ----

  predicate OnlyURL(ops: seq<Op>, url: string) {
    forall op :: op in ops && op.CreateOp? ==> op.create.url == url
  }

  function CreateCount(ops: seq<Op>): nat {
    if ops == [] then 0
    else CreateCount(ops[..|ops| - 1]) + if ops[|ops| - 1].CreateOp? then 1 else 0
  }

  lemma MultipleBounds(d: int, x: int)
    requires d >= 1
    ensures x >= 2 ==> d * x >= 2 * d
    ensures x <= -1 ==> d * x <= -d
  {
    if x >= 2 {
      assert d * (x - 2) >= 0;
    } else if x <= -1 {
      assert d * (-1 - x) >= 0;
    }
  }

  lemma DivModStep(n: nat, d: nat)
    requires d >= 1
    ensures if n % d + 1 == d then (n + 1) / d == n / d + 1 && (n + 1) % d == 0
            else (n + 1) / d == n / d && (n + 1) % d == n % d + 1
  {
    var q, r, q', r' := n / d, n % d, (n + 1) / d, (n + 1) % d;
    assert n == d * q + r && n + 1 == d * q' + r';
    assert d * (q' - q) == r + 1 - r';
    MultipleBounds(d, q' - q);
  }

  // The counter stands at list 1 + full, which holds used statuses; no later list of the URL exists.
  ghost predicate AtPlace(s: System, url: string, full: int, used: int) {
    && (if full == 0 && used == 0 then s == INITIAL else s.latest == Some(1 + full))
    && (ListKey(url, 1 + full) in s.lists <==> used > 0)
    && (used > 0 ==> s.lists[ListKey(url, 1 + full)].next == used)
    && (forall i :: i > 1 + full ==> ListKey(url, i) !in s.lists)
  }

  lemma CreateAtPlace(s: System, listSize: int, url: string, full: nat, used: nat, req: CreateReq)
    requires Inv(s, listSize) && AtPlace(s, url, full, used) && used < listSize
    requires CreateIsFaultless(req) && req.url == url
    ensures Create(s, listSize, req).1 == Ok(Slot(ListKey(url, 1 + full), used))
    ensures if used + 1 == listSize then AtPlace(Create(s, listSize, req).0, url, full + 1, 0)
            else AtPlace(Create(s, listSize, req).0, url, full, used + 1)
  {
    ObtainFacts(s, listSize, req);
    var Obtained(key, list) := Obtain(s, listSize, req).1.value;
    assert key == ListKey(url, 1 + full) && list.next == used;
    var s' := Create(s, listSize, req).0;
    assert s'.lists == s.lists[key := Counted(list)];
    forall i | i > 1 + full ensures ListKey(url, i) !in s'.lists {
      if ListKey(url, i) == key { ListKeyInjective(url, i, url, 1 + full); }
    }
  }

  lemma UpdateAtPlace(s: System, listSize: int, url: string, full: nat, used: nat, req: UpdateReq)
    requires Inv(s, listSize) && AtPlace(s, url, full, used)
    ensures AtPlace(Update(s, req).0, url, full, used)
  {
    UpdateKeeps(s, listSize, req);
  }

  // The counter's place after n creations is n div listSize full lists and n mod listSize statuses.
  ghost predicate AtCount(s: System, listSize: int, url: string, n: nat)
    requires listSize >= 1
  {
    AtPlace(s, url, n / listSize, n % listSize)
  }

  lemma CreateAtCount(s: System, listSize: int, url: string, n: nat, req: CreateReq)
    requires listSize >= 1 && Inv(s, listSize) && AtCount(s, listSize, url, n)
    requires CreateIsFaultless(req) && req.url == url
    ensures AtCount(Create(s, listSize, req).0, listSize, url, n + 1)
  {
    var full, used := n / listSize, n % listSize;
    CreateAtPlace(s, listSize, url, full, used, req);
    DivModStep(n, listSize);
  }

  lemma {:induction false} RunAtCount(listSize: int, ops: seq<Op>, url: string)
    requires listSize >= 1 && AllFaultless(ops) && OnlyURL(ops, url)
    ensures AtCount(Run(listSize, ops), listSize, url, CreateCount(ops))
  {
    if ops != [] {
      var before := ops[..|ops| - 1];
      FaultlessPrefix(ops);
      assert ops[|ops| - 1] in ops;
      RunAtCount(listSize, before, url);
      RunKeepsInv(listSize, before);
      var s, n := Run(listSize, before), CreateCount(before);
      match ops[|ops| - 1]
      case CreateOp(req) =>
        CreateAtCount(s, listSize, url, n, req);
      case UpdateOp(req) =>
        UpdateAtPlace(s, listSize, url, n / listSize, n % listSize, req);
    }
  }

  // The k-th creation on a single URL, with any updates in between.
  lemma KthStatus(listSize: int, ops: seq<Op>, url: string, i: nat)
    requires listSize >= 1 && i < |ops| && AllFaultless(ops) && OnlyURL(ops, url) && ops[i].CreateOp?
    ensures var k := CreateCount(ops[..i]);
            Answer(listSize, ops, i) == Issued(Slot(ListKey(url, 1 + k / listSize), k % listSize))
  {
    assert ops[i] in ops && forall op :: op in ops[..i] ==> op in ops;
    RunAtCount(listSize, ops[..i], url);
    RunKeepsInv(listSize, ops[..i]);
    var k := CreateCount(ops[..i]);
    CreateAtPlace(Run(listSize, ops[..i]), listSize, url, k / listSize, k % listSize, ops[i].create);
  }
}
