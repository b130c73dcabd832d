/**
 The status-list collection: pkg/storage/mongodb/cslstore/csl_store.go. One collection holds the lists,
 each under its credential's ID, and the latest-list counter under a fixed key.
 */
module CslStores {
  import opened Wrappers
  import opened Text
  import opened StatusLists

  type Proof = map<string, FieldValue>

  datatype ListSubject = ListSubject(statusPurpose: string, encodedList: string)

  datatype Credential = Credential(id: string, issuer: string, subject: ListSubject, proofs: seq<Proof>, jwt: string)

  // A serialized credential: a JSON object with its id beside the rest, a JWT, or nothing at all.
  datatype VcJson = LdpJson(id: Option<string>, body: string) | JwtJson(token: string) | NoJson

  datatype StoredCsl = StoredCsl(vc: VcJson, size: int, revocationListIndex: int, listID: int)

  // A document holds the fields some $set put there: those of a list, or those of the counter.
  datatype Document = Document(csl: Option<StoredCsl>, latest: Option<int>)

  const EMPTY_DOCUMENT := Document(None, None)

  // A missing number reads as zero.
  function LatestOf(doc: Document): int {
    match doc.latest
    case Some(id) => id
    case None => 0
  }

  class CSLWrapper {
    var vcByte: VcJson
    var size: int
    var revocationListIndex: int
    var listID: int
    var vc: Option<Credential>

    constructor (vcByte: VcJson, size: int, revocationListIndex: int, listID: int, vc: Option<Credential>)
      ensures this.vcByte == vcByte && this.size == size && this.revocationListIndex == revocationListIndex
      ensures this.listID == listID && this.vc == vc
    {
      this.vcByte, this.size, this.revocationListIndex := vcByte, size, revocationListIndex;
      this.listID, this.vc := listID, vc;
    }
  }

  // The id of a JSON object is not stored: the document's key stands for it.
  function StripId(vc: VcJson): VcJson {
    match vc
    case LdpJson(_, body) => LdpJson(None, body)
    case _ => vc
  }

  function RestoreId(vc: VcJson, key: string): VcJson {
    match vc
    case LdpJson(_, body) => LdpJson(Some(key), body)
    case _ => vc
  }

  // Deleting the id on the way in and restoring it on the way out loses it only if it was not the key.
  lemma StripRestore(vc: VcJson, key: string)
    ensures RestoreId(StripId(vc), key) == vc <==> (vc.LdpJson? ==> vc.id == Some(key))
    ensures StripId(vc).LdpJson? ==> StripId(vc).id == None
  {
    match vc
    case LdpJson(_, _) =>
    case JwtJson(_) =>
    case NoJson =>
  }

  // $set with upsert: the fields of a list put into the document, which is created if need be.
  function WithList(docs: map<string, Document>, key: string, stored: StoredCsl): map<string, Document> {
    docs[key := (if key in docs then docs[key] else EMPTY_DOCUMENT).(csl := Some(stored))]
  }

  class Store {
    var docs: map<string, Document>

    constructor ()
      ensures docs == map[]
    {
      docs := map[];
    }

    method Upsert(w: CSLWrapper, outcome: WriteOutcome) returns (ok: bool)
      requires w.vc.Some?
      modifies this
      ensures ok <==> outcome == Done
      ensures var key := w.vc.value.id;
              var stored := StoredCsl(StripId(w.vcByte), w.size, w.revocationListIndex, w.listID);
              && (outcome.Applied() ==>
                    var latest := if key in old(docs) then old(docs)[key].latest else None;
                    docs == old(docs)[key := Document(Some(stored), latest)])
              && (!outcome.Applied() ==> docs == old(docs))
    {
      var key := w.vc.value.id;
      var stored := StoredCsl(StripId(w.vcByte), w.size, w.revocationListIndex, w.listID);
      if outcome.Applied() {
        docs := WithList(docs, key, stored);
      }
      ok := outcome == Done;
    }

    method Get(id: string, fails: bool) returns (r: Result<CSLWrapper, StatusError>)
      ensures fails ==> r == Err(StoreReadFailed)
      ensures !fails && id !in docs ==> r == Err(ListNotFound)
      ensures !fails && id in docs ==> r.Ok? && fresh(r.value) && r.value.vc == None
      ensures !fails && id in docs && docs[id].csl.Some? ==>
                var stored := docs[id].csl.value;
                && r.value.vcByte == RestoreId(stored.vc, id)
                && r.value.size == stored.size
                && r.value.revocationListIndex == stored.revocationListIndex
                && r.value.listID == stored.listID
      ensures !fails && id in docs && docs[id].csl.None? ==>
                && r.value.vcByte == NoJson && r.value.size == r.value.revocationListIndex == 0
                && r.value.listID == LatestOf(docs[id])
    {
      if fails {
        return Err(StoreReadFailed);
      }
      if id !in docs {
        return Err(ListNotFound);
      }
      var w: CSLWrapper;
      match docs[id].csl {
        case Some(stored) =>
          w := new CSLWrapper(RestoreId(stored.vc, id), stored.size, stored.revocationListIndex, stored.listID, None);
        case None =>
          // Go matches JSON names without regard to case, so the counter's listId fills the wrapper's listID.
          w := new CSLWrapper(NoJson, 0, 0, LatestOf(docs[id]), None);
      }
      r := Ok(w);
    }

    // An insert: a counter that is already there makes it fail.
    method CreateLatestListID(id: int, outcome: WriteOutcome) returns (ok: bool)
      modifies this
      ensures ok <==> outcome == Done && LATEST_LIST_ID_KEY !in old(docs)
      ensures docs == if outcome.Applied() && LATEST_LIST_ID_KEY !in old(docs)
                      then old(docs)[LATEST_LIST_ID_KEY := Document(None, Some(id))]
                      else old(docs)
    {
      if LATEST_LIST_ID_KEY in docs {
        return false;
      }
      if outcome.Applied() {
        docs := docs[LATEST_LIST_ID_KEY := Document(None, Some(id))];
      }
      ok := outcome == Done;
    }

    // An update without upsert: a missing counter stays missing, and no error says so.
    method UpdateLatestListID(id: int, outcome: WriteOutcome) returns (ok: bool)
      modifies this
      ensures ok <==> outcome == Done
      ensures docs == if outcome.Applied() && LATEST_LIST_ID_KEY in old(docs)
                      then old(docs)[LATEST_LIST_ID_KEY := old(docs[LATEST_LIST_ID_KEY]).(latest := Some(id))]
                      else old(docs)
    {
      if outcome.Applied() && LATEST_LIST_ID_KEY in docs {
        docs := docs[LATEST_LIST_ID_KEY := docs[LATEST_LIST_ID_KEY].(latest := Some(id))];
      }
      ok := outcome == Done;
    }

    method GetLatestListID(fails: bool) returns (r: Result<int, StatusError>)
      ensures fails ==> r == Err(StoreReadFailed)
      ensures !fails ==> (r == Err(ListNotFound) <==> LATEST_LIST_ID_KEY !in docs)
      ensures !fails && LATEST_LIST_ID_KEY in docs ==>
                r == Ok(LatestOf(docs[LATEST_LIST_ID_KEY]))
    {
      if fails {
        return Err(StoreReadFailed);
      }
      if LATEST_LIST_ID_KEY !in docs {
        return Err(ListNotFound);
      }
      r := Ok(LatestOf(docs[LATEST_LIST_ID_KEY]));
    }
  }
}
