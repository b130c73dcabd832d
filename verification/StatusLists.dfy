/**
 What the credential status service does, stated on values: the slots it hands out, the bit of each
 slot, and the answer a verifier reads back. The classes in CredentialStatus.dfy are proved against
 these functions; StatusRuns.dfy proves what whole runs of them keep.
 */
module StatusLists {
  import opened Wrappers
  import opened Text
  import opened BitStrings

  const STATUS_LIST_INDEX := "statusListIndex"
  const STATUS_LIST_CREDENTIAL := "statusListCredential"
  const STATUS_PURPOSE := "statusPurpose"
  const STATUS_LIST_2021_ENTRY := "StatusList2021Entry"
  const REVOCATION := "revocation"
  const BIT_STRING_SIZE := 128000

  // A custom field is any JSON value; the services only ever read strings out of it.
  datatype FieldValue = Text(text: string) | NotText

  datatype TypedID = TypedID(kind: string, fields: map<string, FieldValue>)

  datatype StatusError =
    | StatusMissing | StatusTypeUnsupported | IndexFieldMissing | CredentialFieldMissing | PurposeFieldMissing
    | NotAString     // a cast whose failure is reported
    | Panic          // a cast whose failure is not
    | ListNotFound | StoreReadFailed | StoreWriteFailed
    | ParseFailed | SigningFailed
    | IndexNotANumber | PositionInvalid | IssuerMismatch | PurposeMismatch
    | Revoked

  // validateVCStatus, the same in the issuing and in the verifying service.
  function CheckStatus(status: Option<TypedID>): Option<StatusError> {
    if status.None? then Some(StatusMissing)
    else if status.value.kind != STATUS_LIST_2021_ENTRY then Some(StatusTypeUnsupported)
    else if STATUS_LIST_INDEX !in status.value.fields then Some(IndexFieldMissing)
    else if STATUS_LIST_CREDENTIAL !in status.value.fields then Some(CredentialFieldMissing)
    else if STATUS_PURPOSE !in status.value.fields then Some(PurposeFieldMissing)
    else None
  }

  // ---- The service's state ----

  datatype StatusList = StatusList(listID: int, size: int, next: int, issuer: string, bits: seq<bool>)

  // The latest-list counter, absent until the first status is asked for, and the lists by key.
  datatype System = System(latest: Option<int>, lists: map<string, StatusList>)

  const INITIAL := System(None, map[])

  datatype Slot = Slot(list: string, index: int)

  function StatusOf(slot: Slot): TypedID {
    TypedID(STATUS_LIST_2021_ENTRY,
            map[STATUS_PURPOSE := Text(REVOCATION),
                STATUS_LIST_INDEX := Text(Itoa(slot.index)),
                STATUS_LIST_CREDENTIAL := Text(slot.list)])
  }

  function BitStringLength(listSize: int): int {
    if listSize < BIT_STRING_SIZE then BIT_STRING_SIZE else listSize
  }

  function Capacity(listSize: int): (n: nat)
    ensures n >= listSize && n >= BIT_STRING_SIZE
  {
    8 * (1 + TruncDiv(BitStringLength(listSize) - 1, BITS_PER_BYTE))
  }

  function FreshList(listSize: int, listID: int, issuer: string): StatusList {
    StatusList(listID, 0, 0, issuer, seq(Capacity(listSize), _ => false))
  }

  // ---- CreateStatusID ----

  // What the environment does to one call: failing reads, the fate of each write, and whether
  // the list credential can be built and signed if one is needed.
  datatype CreateReq = CreateReq(url: string, did: string, built: bool,
                                 readLatestFails: bool, createLatest: WriteOutcome, readListFails: bool,
                                 upsert: WriteOutcome, updateLatest: WriteOutcome)

  datatype Obtained = Obtained(key: string, list: StatusList)

  // getLatestCSLWrapper: the list at the latest ID, created in memory when it is not stored yet.
  function Obtain(s: System, listSize: int, req: CreateReq): (System, Result<Obtained, StatusError>) {
    if req.readLatestFails then (s, Err(StoreReadFailed))
    else if s.latest.None? then
      var s1 := if req.createLatest.Applied() then s.(latest := Some(1)) else s;
      if req.createLatest != Done then (s1, Err(StoreWriteFailed))
      else if !req.built then (s1, Err(SigningFailed))
      else (s1, Ok(Obtained(ListKey(req.url, 1), FreshList(listSize, 1, req.did))))
    else
      var id := s.latest.value;
      var key := ListKey(req.url, id);
      if req.readListFails then (s, Err(StoreReadFailed))
      else if key in s.lists then (s, Ok(Obtained(key, s.lists[key])))
      else if !req.built then (s, Err(SigningFailed))
      else (s, Ok(Obtained(key, FreshList(listSize, id, req.did))))
  }

  // A list with one more status.
  function Counted(list: StatusList): StatusList {
    list.(size := list.size + 1, next := list.next + 1)
  }

  // The rest of the call: count the list up, store it, and move the counter on when it is full.
  function Commit(s: System, listSize: int, got: Obtained, upsert: WriteOutcome, updateLatest: WriteOutcome)
    : (System, Result<Slot, StatusError>)
  {
    var list := Counted(got.list);
    var slot := Slot(got.key, got.list.next);
    var s1 := if upsert.Applied() then s.(lists := s.lists[got.key := list]) else s;
    if upsert != Done then (s1, Err(StoreWriteFailed))
    else if list.size != listSize then (s1, Ok(slot))
    else
      var s2 := if updateLatest.Applied() then s1.(latest := Some(list.listID + 1)) else s1;
      (s2, if updateLatest == Done then Ok(slot) else Err(StoreWriteFailed))
  }

  function Create(s: System, listSize: int, req: CreateReq): (System, Result<Slot, StatusError>) {
    var (s1, got) := Obtain(s, listSize, req);
    if got.Err? then (s1, Err(got.error))
    else Commit(s1, listSize, got.value, req.upsert, req.updateLatest)
  }

  // ---- UpdateVC ----

  datatype UpdateReq = UpdateReq(status: Option<TypedID>, value: bool, readListFails: bool,
                                 prepared: bool, signed: bool, upsert: WriteOutcome)

  // Reading a list back: the counter's own document holds no credential to parse.
  function Lookup(s: System, key: string, readFails: bool): Result<StatusList, StatusError> {
    if readFails then Err(StoreReadFailed)
    else if key in s.lists then Ok(s.lists[key])
    else if key == LATEST_LIST_ID_KEY && s.latest.Some? then Err(ParseFailed)
    else Err(ListNotFound)
  }

  function Update(s: System, req: UpdateReq): (System, Result<(), StatusError>) {
    var check := CheckStatus(req.status);
    if check.Some? then (s, Err(check.value))
    else
      var fields := req.status.value.fields;
      if fields[STATUS_LIST_CREDENTIAL].NotText? then (s, Err(NotAString))
      else
        var key := fields[STATUS_LIST_CREDENTIAL].text;
        var list := Lookup(s, key, req.readListFails);
        if list.Err? then (s, Err(list.error))
        else if !req.prepared then (s, Err(SigningFailed))
        else if fields[STATUS_LIST_INDEX].NotText? then (s, Err(Panic))
        else
          var index := Atoi(fields[STATUS_LIST_INDEX].text);
          if index.None? then (s, Err(IndexNotANumber))
          else Rewrite(s, key, index.value, req.value, req.signed, req.upsert)
  }

  // One bit of a list written, the list signed again and stored.
  function Rewrite(s: System, key: string, index: int, value: bool, signed: bool, upsert: WriteOutcome)
    : (System, Result<(), StatusError>)
    requires key in s.lists
  {
    var list := s.lists[key];
    if !(0 <= index < |list.bits|) then (s, Err(PositionInvalid))
    else if !signed then (s, Err(SigningFailed))
    else
      var list' := list.(bits := list.bits[index := value]);
      var s' := if upsert.Applied() then s.(lists := s.lists[key := list']) else s;
      (s', if upsert == Done then Ok(()) else Err(StoreWriteFailed))
  }

  // ---- ValidateVCStatus ----

  function Validate(s: System, status: Option<TypedID>, issuer: string, readFails: bool): Result<(), StatusError> {
    var check := CheckStatus(status);
    if check.Some? then Err(check.value)
    else
      var fields := status.value.fields;
      if fields[STATUS_LIST_INDEX].NotText? then Err(Panic)
      else
        var index := Atoi(fields[STATUS_LIST_INDEX].text);
        if index.None? then Err(IndexNotANumber)
        else if fields[STATUS_LIST_CREDENTIAL].NotText? then Err(Panic)
        else
          var list := Lookup(s, fields[STATUS_LIST_CREDENTIAL].text, readFails);
          if list.Err? then Err(list.error)
          else if list.value.issuer != issuer then Err(IssuerMismatch)
          else if fields[STATUS_PURPOSE].NotText? then Err(Panic)
          else if fields[STATUS_PURPOSE].text != REVOCATION then Err(PurposeMismatch)
          else
            var bit := ReadBit(list.value.bits, index.value);
            if bit.None? then Err(PositionInvalid)
            else if bit.value then Err(Revoked)
            else Ok(())
  }
}
