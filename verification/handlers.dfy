/**
 The four request handlers of the task service, each as a pure transition
 from the store and an already-decoded request to the new store and an
 outcome. HTTP framing and JSON encoding are abstracted away: a request body
 arrives as a `Payload`, and a response is a status code and an abstract body.

 Several error branches of the service log fatally before they write their
 error response. A fatal log ends the process, so that response is never
 sent; such branches yield `Aborted`, and the store is left as it was.
 */
module Handlers {
  import opened Tasks

  const StatusOK := 200
  const StatusCreated := 201
  const StatusBadRequest := 400

  /** Why a request failed. */
  datatype Failure =
    | BodyUnreadable   // the request body could not be read
    | DecodeError      // the request body is not a JSON-encoded task
    | AlreadyExists    // a stored record already carries the new task's identifier
    | NotFound         // no record is stored under the requested identifier

  /** The abstract content of a response. */
  datatype Body =
    | Empty
    | Snapshot(tasks: Store)       // the whole store, as a JSON object id -> task
    | Single(task: Task)           // one task
    | ErrorText(failure: Failure)  // a plain-text error message

  datatype Outcome =
    | Reply(status: int, body: Body)  // a response the handler writes
    | Aborted(failure: Failure)       // the handler logs fatally and the process ends

  /** The body of a create request, as far as decoding got. */
  datatype Payload =
    | Unreadable
    | Malformed
    | Parsed(task: Task)

  /** The store after a handler ran, and what it answered. */
  datatype Step = Step(store: Store, outcome: Outcome)

  /** List: answer 200 with the whole store. */
  function ListAll(s: Store): (r: Step)
    ensures r.store == s
    ensures r.outcome.Reply? && r.outcome.status == StatusOK
    ensures r.outcome.body.Snapshot? && r.outcome.body.tasks == s
  {
    Step(s, Reply(StatusOK, Snapshot(s)))
  }

  /** Create: reject a body that cannot be read or decoded, reject a task whose
      identifier some stored record already carries, and otherwise store the
      task under its identifier and answer 201 with an empty body. */
  function Create(s: Store, p: Payload): (r: Step)
    // a body that does not decode changes nothing
    ensures !p.Parsed? ==> r.store == s && r.outcome.Aborted?
    // a duplicate is rejected before anything is stored
    ensures p.Parsed? && IdTaken(s, p.task.id) ==> r == Step(s, Aborted(AlreadyExists))
    // a fresh task is added under its identifier, and nothing else changes
    ensures p.Parsed? && !IdTaken(s, p.task.id) ==>
      && r.outcome == Reply(StatusCreated, Empty)
      && r.store.Keys == s.Keys + {p.task.id}
      && r.store[p.task.id] == p.task
      && SameExcept(s, r.store, p.task.id)
    ensures Valid(s) ==> Valid(r.store)
  {
    match p
    case Unreadable => Step(s, Aborted(BodyUnreadable))
    case Malformed => Step(s, Aborted(DecodeError))
    case Parsed(t) =>
      if IdTaken(s, t.id) then
        Step(s, Aborted(AlreadyExists))
      else
        Step(s[t.id := t], Reply(StatusCreated, Empty))
  }

  /** Get: answer 200 with the record stored under `id`, or abort when there
      is none. The store is never changed. */
  function Get(s: Store, id: string): (r: Step)
    ensures r.store == s
    ensures r.outcome.Reply? <==> id in s
    ensures r.outcome.Reply? ==> r.outcome == Reply(StatusOK, Single(s[id]))
    ensures r.outcome.Aborted? ==> r.outcome.failure == NotFound
    // under the invariant the record returned carries the requested identifier
    ensures Valid(s) && r.outcome.Reply? ==> r.outcome.body.task.id == id
  {
    if id in s then Step(s, Reply(StatusOK, Single(s[id])))
    else Step(s, Aborted(NotFound))
  }

  /** Delete: answer 400 when nothing is stored under `id`; otherwise take a
      snapshot of the whole store, remove `id`, and answer 200 with the
      snapshot taken before the removal. */
  function Delete(s: Store, id: string): (r: Step)
    // no branch of delete logs fatally
    ensures r.outcome.Reply?
    ensures id !in s ==> r == Step(s, Reply(StatusBadRequest, ErrorText(NotFound)))
    ensures id in s ==>
      && r.outcome == Reply(StatusOK, Snapshot(s))
      && r.store.Keys == s.Keys - {id}
      && SameExcept(s, r.store, id)
    // a successful answer still lists the removed identifier
    ensures r.outcome.status == StatusOK ==> r.outcome.body.Snapshot? && id in r.outcome.body.tasks
    ensures |r.store| == if id in s then |s| - 1 else |s|
    ensures Valid(s) ==> Valid(r.store)
  {
    if id !in s then
      Step(s, Reply(StatusBadRequest, ErrorText(NotFound)))
    else
      var snapshot := s;
      Step(s - {id}, Reply(StatusOK, Snapshot(snapshot)))
  }

  /** The duplicate check of the create handler: visit the stored records in
      an arbitrary order and stop at the first one carrying `id`. */
  method ScanForId(s: Store, id: string) returns (found: bool)
    ensures found <==> IdTaken(s, id)
  {
    var pending := s.Keys;
    while pending != {}
      invariant pending <= s.Keys
      invariant forall k :: k in s && k !in pending ==> s[k].id != id
      decreases pending
    {
      var k :| k in pending;
      if s[k].id == id {
        return true;
      }
      pending := pending - {k};
    }
    return false;
  }

  /** The create handler written as the service runs it, with the record scan
      as a loop; it makes the same transition as `Create`. */
  method PostTask(s: Store, p: Payload) returns (r: Step)
    ensures r == Create(s, p)
  {
    match p {
      case Unreadable =>
        return Step(s, Aborted(BodyUnreadable));
      case Malformed =>
        return Step(s, Aborted(DecodeError));
      case Parsed(t) =>
        var duplicate := ScanForId(s, t.id);
        if duplicate {
          return Step(s, Aborted(AlreadyExists));
        }
        return Step(s[t.id := t], Reply(StatusCreated, Empty));
    }
  }
}
