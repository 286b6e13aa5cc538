/** data-exchange-service/src/retention: the deletion control plane, and the operations on
    exchanges that decide whether what it deleted stays deleted. */
module Deletion {
  import opened Options

  datatype Direction = INBOUND | OUTBOUND

  datatype Status =
    | PENDING_UPLOAD | UPLOADING | RECEIVED | VALIDATING | VALIDATION_FAILED | VALIDATED
    | QUEUED_FOR_INGESTION | PROCESSING | COMPLETED | FAILED | CANCELLED | EXPIRED
    | PREPARING | READY | DOWNLOADED | DELETED

  datatype Exchange = Exchange(
    organizationId: string, tenantId: string, direction: Direction, status: Status,
    legalHold: bool, expiresAt: Option<int>)

  /** Where an object lives in storage. */
  datatype Object = Object(bucket: string, key: string)

  datatype Reason = NOT_OUTBOUND | NOT_EXPIRED | LEGAL_HOLD

  datatype RequestStatus = Requested | InProgress | Blocked(reason: Reason) | Completed | Failed

  datatype Request = Request(exchangeId: string, status: RequestStatus)

  datatype Audit =
    | DeletionRequested(request: nat, exchangeId: string)
    | DeletionBlocked(request: nat, exchangeId: string, reason: Reason)
    | RetentionExecuted(request: nat, exchangeId: string, filesDeleted: nat)
    | DeletionCompleted(request: nat, exchangeId: string)
    | DeletionFailed(request: nat, exchangeId: string)
    | HoldChanged(exchangeId: string, legalHold: bool)

  /** The tables, the object store and the clock. A request's id is its index. */
  datatype State = State(
    exchanges: map<string, Exchange>,
    files: map<string, seq<Object>>,
    objects: set<Object>,
    requests: seq<Request>,
    audit: seq<Audit>,
    clock: int)

  // ------------------------------------------------------------ tables

  function Transitions(direction: Direction, from: Status): set<Status> {
    match (direction, from)
    case (INBOUND, PENDING_UPLOAD) => {UPLOADING, RECEIVED}
    case (INBOUND, UPLOADING) => {RECEIVED}
    case (INBOUND, RECEIVED) => {VALIDATING}
    case (INBOUND, VALIDATING) => {VALIDATION_FAILED, VALIDATED}
    case (INBOUND, VALIDATED) => {QUEUED_FOR_INGESTION}
    case (INBOUND, QUEUED_FOR_INGESTION) => {PROCESSING}
    case (INBOUND, PROCESSING) => {COMPLETED}
    case (OUTBOUND, PREPARING) => {READY}
    case (OUTBOUND, READY) => {DOWNLOADED}
    case (OUTBOUND, DOWNLOADED) => {DOWNLOADED}
    case (OUTBOUND, EXPIRED) => {DELETED}
    case _ => {}
  }

  predicate ValidTransition(direction: Direction, from: Status, to: Status) {
    to in {FAILED, CANCELLED, EXPIRED} || to in Transitions(direction, from)
  }

  /** Why an exchange may not be deleted; None when it may. */
  function Ineligible(e: Exchange): Option<Reason> {
    if e.direction != OUTBOUND then Some(NOT_OUTBOUND)
    else if e.status != EXPIRED then Some(NOT_EXPIRED)
    else if e.legalHold then Some(LEGAL_HOLD)
    else None
  }

  lemma EligibleMayBeDeleted(e: Exchange)
    ensures Ineligible(e).None? ==> ValidTransition(OUTBOUND, e.status, DELETED)
  {
  }

  // ------------------------------------------------------------ one deletion

  /** A storage delete that throws may or may not have removed the object. */
  datatype StorageReply = Gone | Threw(removed: bool)

  /** How many leading deletes come back before one throws. */
  function Deletes(files: seq<Object>, replies: nat -> StorageReply, i: nat): (k: nat)
    requires i <= |files|
    ensures i <= k <= |files|
    ensures (forall j :: i <= j < k ==> replies(j).Gone?) && (k < |files| ==> replies(k).Threw?)
    decreases |files| - i
  {
    if i < |files| && replies(i).Gone? then Deletes(files, replies, i + 1) else i
  }

  /** getExchangeFiles: the rows of one exchange, none when it has none. */
  function FilesOf(files: map<string, seq<Object>>, id: string): seq<Object> { if id in files then files[id] else [] }

  function SetOf(files: seq<Object>): set<Object> { set f | f in files }

  /** The objects gone after deleting `files` in order, up to the first exception. */
  function Lost(files: seq<Object>, replies: nat -> StorageReply): set<Object> {
    var k := Deletes(files, replies, 0);
    SetOf(files[..k]) + if k < |files| && replies(k) == Threw(true) then {files[k]} else {}
  }

  /** How a request for an existing exchange ends, and the evidence it leaves. */
  function Verdict(e: Exchange, files: seq<Object>, replies: nat -> StorageReply): RequestStatus {
    if Ineligible(e).Some? then Blocked(Ineligible(e).value)
    else if Deletes(files, replies, 0) == |files| then Completed
    else Failed
  }

  function Evidence(request: nat, exchangeId: string, status: RequestStatus, filesDeleted: nat): seq<Audit> {
    [DeletionRequested(request, exchangeId)]
    + match status
      case Blocked(reason) => [DeletionBlocked(request, exchangeId, reason)]
      case Completed => [RetentionExecuted(request, exchangeId, filesDeleted), DeletionCompleted(request, exchangeId)]
      case Failed => [DeletionFailed(request, exchangeId)]
      case _ => []
  }

  function Delete(s: State, id: string, replies: nat -> StorageReply): State
    requires id in s.exchanges
  {
    var e, files := s.exchanges[id], FilesOf(s.files, id);
    var verdict := Verdict(e, files, replies);
    s.(requests := s.requests + [Request(id, verdict)],
       audit := s.audit + Evidence(|s.requests|, id, verdict, |files|),
       objects := if verdict.Blocked? then s.objects else s.objects - Lost(files, replies),
       exchanges := if verdict.Completed? then s.exchanges[id := e.(status := DELETED)] else s.exchanges)
  }

  /** The three ways a request ends, written out event by event. */
  lemma DeleteCases(s: State, id: string, replies: nat -> StorageReply)
    requires id in s.exchanges
    ensures var e, files, request := s.exchanges[id], FilesOf(s.files, id), |s.requests|;
            var audit := s.audit + [DeletionRequested(request, id)];
            Delete(s, id, replies) ==
            match Ineligible(e)
            case Some(reason) =>
              s.(requests := s.requests + [Request(id, Blocked(reason))],
                 audit := audit + [DeletionBlocked(request, id, reason)])
            case None =>
              if Deletes(files, replies, 0) == |files| then
                s.(requests := s.requests + [Request(id, Completed)],
                   audit := audit + [RetentionExecuted(request, id, |files|)] + [DeletionCompleted(request, id)],
                   objects := s.objects - Lost(files, replies),
                   exchanges := s.exchanges[id := e.(status := DELETED)])
              else
                s.(requests := s.requests + [Request(id, Failed)],
                   audit := audit + [DeletionFailed(request, id)],
                   objects := s.objects - Lost(files, replies))
  {
    hide Lost, Deletes, Ineligible;
  }

  class DeletionService {
    var exchanges: map<string, Exchange>
    var files: map<string, seq<Object>>
    var objects: set<Object>
    var requests: seq<Request>
    var audit: seq<Audit>

    ghost function At(clock: int): State
      reads this
    {
      State(exchanges, files, objects, requests, audit, clock)
    }

    constructor ()
      ensures At(0) == State(map[], map[], {}, [], [], 0)
    {
      exchanges, files, objects, requests, audit := map[], map[], {}, [], [];
    }

    method UpdateRequestStatus(request: nat, status: RequestStatus)
      requires request < |requests|
      modifies this`requests
      ensures requests == old(requests)[request := old(requests)[request].(status := status)]
      ensures request == old(|requests|) - 1 ==>
                requests == old(requests)[..request] + [old(requests)[request].(status := status)]
    {
      requests := requests[request := requests[request].(status := status)];
    }

    /** Ends as `Delete` says, or changes nothing when there is no such exchange. */
    method RequestDeletion(id: string, replies: nat -> StorageReply) returns (result: Option<Request>)
      modifies this
      ensures id !in old(exchanges) ==> result == None && At(0) == old(At(0))
      ensures id in old(exchanges) ==>
                && At(0) == Delete(old(At(0)), id, replies)
                && result.Some? && requests == old(requests) + [result.value]
    {
      if id !in exchanges {
        return None;
      }
      hide Delete, Lost, Deletes, ValidTransition, Ineligible;
      DeleteCases(At(0), id, replies);
      EligibleMayBeDeleted(exchanges[id]);
      var exchange, toDelete := exchanges[id], FilesOf(files, id);
      var request := |requests|;
      requests := requests + [Request(id, Requested)];
      audit := audit + [DeletionRequested(request, id)];
      assert requests[..request] == old(requests);

      var ineligible := Ineligible(exchange);
      if ineligible.Some? {
        UpdateRequestStatus(request, Blocked(ineligible.value));
        audit := audit + [DeletionBlocked(request, id, ineligible.value)];
        return Some(Request(id, Blocked(ineligible.value)));
      }
      UpdateRequestStatus(request, InProgress);
      assert requests[..request] == old(requests);

      var ok := DeleteObjects(toDelete, replies);
      if ok && ValidTransition(OUTBOUND, exchange.status, DELETED) {
        exchanges := exchanges[id := exchange.(status := DELETED)];
        UpdateRequestStatus(request, Completed);
        audit := audit + [RetentionExecuted(request, id, |toDelete|)];
        audit := audit + [DeletionCompleted(request, id)];
        return Some(Request(id, Completed));
      } else {
        UpdateRequestStatus(request, Failed);
        audit := audit + [DeletionFailed(request, id)];
        return Some(Request(id, Failed));
      }
    }

    /** The loop over the files; false when a delete throws. */
    method DeleteObjects(toDelete: seq<Object>, replies: nat -> StorageReply) returns (ok: bool)
      modifies this`objects
      ensures ok <==> Deletes(toDelete, replies, 0) == |toDelete|
      ensures objects == old(objects) - Lost(toDelete, replies)
    {
      for i := 0 to |toDelete|
        invariant Deletes(toDelete, replies, 0) == Deletes(toDelete, replies, i)
        invariant objects == old(objects) - SetOf(toDelete[..i])
      {
        assert SetOf(toDelete[..i + 1]) == SetOf(toDelete[..i]) + {toDelete[i]} by {
          assert toDelete[..i + 1] == toDelete[..i] + [toDelete[i]];
        }
        match replies(i)
        case Gone => objects := objects - {toDelete[i]};
        case Threw(removed) =>
          if removed {
            objects := objects - {toDelete[i]};
          }
          return false;
      }
      ok := true;
    }

    method SetLegalHold(id: string, legalHold: bool) returns (found: bool)
      modifies this`exchanges, this`audit
      ensures found <==> id in old(exchanges)
      ensures !found ==> exchanges == old(exchanges) && audit == old(audit)
      ensures found ==>
                && exchanges == old(exchanges)[id := old(exchanges)[id].(legalHold := legalHold)]
                && audit == old(audit) + [HoldChanged(id, legalHold)]
    {
      found := id in exchanges;
      if found {
        exchanges := exchanges[id := exchanges[id].(legalHold := legalHold)];
        audit := audit + [HoldChanged(id, legalHold)];
      }
    }
  }

  /** How one request ends, whatever storage does: BLOCKED exactly when ineligible and then
      nothing is touched; COMPLETED exactly when every delete came back, and then the exchange
      is DELETED and none of its objects is left; FAILED otherwise, with the exchange still
      eligible and the objects before the failing one gone. */
  lemma DeletionEnds(s: State, id: string, replies: nat -> StorageReply)
    requires id in s.exchanges
    ensures var t := Delete(s, id, replies);
            var verdict := t.requests[|s.requests|].status;
            var files := FilesOf(s.files, id);
            && t.requests[..|s.requests|] == s.requests && |t.requests| == |s.requests| + 1
            && t.audit == s.audit + Evidence(|s.requests|, id, verdict, |files|)
            && t.files == s.files && t.clock == s.clock && id in t.exchanges && t.exchanges - {id} == s.exchanges - {id}
            && (verdict.Blocked? <==> Ineligible(s.exchanges[id]).Some?)
            && (verdict.Blocked? ==> Ineligible(s.exchanges[id]) == Some(verdict.reason) && t.objects == s.objects)
            && (verdict.Completed? <==>
                  Ineligible(s.exchanges[id]).None? && forall i :: 0 <= i < |files| ==> replies(i).Gone?)
            && (verdict.Completed? ==>
                  t.exchanges[id] == s.exchanges[id].(status := DELETED) && t.objects == s.objects - SetOf(files))
            && (!verdict.Completed? ==> t.exchanges == s.exchanges)
            && (verdict.Failed? ==>
                  && Ineligible(t.exchanges[id]).None?
                  && exists k :: (0 <= k < |files| && replies(k).Threw?
                                  && t.objects == s.objects - SetOf(files[..if replies(k).removed then k + 1 else k])))
            && (verdict.Blocked? || verdict.Completed? || verdict.Failed?)
  {
    var files := FilesOf(s.files, id);
    var k := Deletes(files, replies, 0);
    if k == |files| {
      assert files[..k] == files;
    } else {
      assert files[..k + 1] == files[..k] + [files[k]];
      assert SetOf(files[..k + 1]) == SetOf(files[..k]) + {files[k]};
    }
  }

  /** The same ending in the rows' own words: what refuses it, and every event it leaves. */
  lemma DeletionSays(s: State, id: string, replies: nat -> StorageReply)
    requires id in s.exchanges
    ensures var t, e, n := Delete(s, id, replies), s.exchanges[id], |s.requests|;
            var status := t.requests[n].status;
            && t.requests == s.requests + [Request(id, status)]
            && (status == Blocked(NOT_OUTBOUND) <==> e.direction == INBOUND)
            && (status == Blocked(NOT_EXPIRED) <==> e.direction == OUTBOUND && e.status != EXPIRED)
            && (status == Blocked(LEGAL_HOLD) <==> e.direction == OUTBOUND && e.status == EXPIRED && e.legalHold)
            && t.audit == s.audit
                          + match status
                            case Blocked(reason) => [DeletionRequested(n, id), DeletionBlocked(n, id, reason)]
                            case Completed =>
                              [DeletionRequested(n, id), RetentionExecuted(n, id, |FilesOf(s.files, id)|),
                               DeletionCompleted(n, id)]
                            case _ => [DeletionRequested(n, id), DeletionFailed(n, id)]
  {
    hide Lost, Deletes;
  }

  // ------------------------------------------------------------ the table of transitions

  /** Failing, cancelling and expiring are always allowed; every other status has few before it. */
  lemma TransitionsInto(from: Status, to: Status)
    ensures ValidTransition(INBOUND, from, to) <==>
            match to
            case FAILED | CANCELLED | EXPIRED => true
            case UPLOADING => from == PENDING_UPLOAD
            case RECEIVED => from == PENDING_UPLOAD || from == UPLOADING
            case VALIDATING => from == RECEIVED
            case VALIDATED | VALIDATION_FAILED => from == VALIDATING
            case QUEUED_FOR_INGESTION => from == VALIDATED
            case PROCESSING => from == QUEUED_FOR_INGESTION
            case COMPLETED => from == PROCESSING
            case _ => false
    ensures ValidTransition(OUTBOUND, from, to) <==>
            match to
            case FAILED | CANCELLED | EXPIRED => true
            case READY => from == PREPARING
            case DOWNLOADED => from == READY || from == DOWNLOADED
            case DELETED => from == EXPIRED
            case _ => false
  {
  }

  predicate Follows(direction: Direction, path: seq<Status>) {
    forall i :: 0 < i < |path| ==> ValidTransition(direction, path[i - 1], path[i])
  }

  /** By the table an upload is COMPLETED only right after every stage of its ingestion. */
  lemma CompletedIsIngested(path: seq<Status>)
    requires |path| > 0 && Follows(INBOUND, path) && path[|path| - 1] == COMPLETED
    requires path[0] == PENDING_UPLOAD
    ensures |path| > 6 && path[|path| - 7] in {PENDING_UPLOAD, UPLOADING}
            && path[|path| - 6..] == [RECEIVED, VALIDATING, VALIDATED, QUEUED_FOR_INGESTION, PROCESSING, COMPLETED]
  {
    hide ValidTransition;
    var n := |path|;
    TransitionsInto(path[n - 2], path[n - 1]);
    TransitionsInto(path[n - 3], path[n - 2]);
    TransitionsInto(path[n - 4], path[n - 3]);
    TransitionsInto(path[n - 5], path[n - 4]);
    TransitionsInto(path[n - 6], path[n - 5]);
    TransitionsInto(path[n - 7], path[n - 6]);
  }

  /** And a publication is DELETED only right after it is EXPIRED. */
  lemma DeletedIsExpired(path: seq<Status>)
    requires |path| > 0 && Follows(OUTBOUND, path) && path[|path| - 1] == DELETED
    requires path[0] == PREPARING
    ensures |path| > 1 && path[|path| - 2] == EXPIRED
  {
    hide ValidTransition;
    TransitionsInto(path[|path| - 2], path[|path| - 1]);
  }

  // ------------------------------------------------------------ trying again

  /** After a failed attempt, one on a storage that works completes. */
  lemma RetryCompletes(s: State, id: string, replies: nat -> StorageReply, retry: nat -> StorageReply)
    requires id in s.exchanges
    requires Delete(s, id, replies).requests[|s.requests|].status == Failed
    requires forall i :: 0 <= i < |FilesOf(s.files, id)| ==> retry(i).Gone?
    ensures var t := Delete(s, id, replies);
            var u := Delete(t, id, retry);
            && u.requests[|t.requests|] == Request(id, Completed)
            && u.exchanges == s.exchanges[id := s.exchanges[id].(status := DELETED)]
            && u.objects == s.objects - SetOf(FilesOf(s.files, id))
  {
    DeletionEnds(s, id, replies);
    var t := Delete(s, id, replies);
    DeletionEnds(t, id, retry);
    forall f | f in Lost(FilesOf(s.files, id), replies) ensures f in SetOf(FilesOf(s.files, id)) {
    }
  }
}
