# Task store of the REST task service

This project models the core of a small HTTP service. The service keeps
"task" records in an in-memory map. It has four handlers: list all tasks,
create a task, get a task by id, and delete a task by id. The store is a
`map<string, Task>` that starts with two seed records, under ids "1" and "2".

Each handler is modelled as a pure transition. It takes the store and an
already-decoded request, and it returns the new store and an outcome. An
outcome is either a `Reply` (a status code and an abstract body) or `Aborted`.

Several error branches in the service call `log.Fatalf` before they write
their error response. `log.Fatalf` ends the process, so that 400 or 500
response is never sent. These branches are modelled as `Aborted`, with the
store left unchanged. A run of several requests (`Server.Run`) stops at the
first aborted request. Which branches do this:

- create: an unreadable body, an undecodable body, or a duplicate id
- get: an id that is not in the store

Delete of a missing id has no fatal log and really answers 400.

Modules:

- `Tasks` (`task.dfy`): the `Task` record, the store, the seed, and `Valid`.
  `Valid` is the invariant that every key equals its record's `id`.
  `IdTaken` is the record scan that create performs.
- `Handlers` (`handlers.dfy`): the four handlers. `ScanForId` and `PostTask`
  write out the create handler's duplicate check as a loop over the records,
  visited in an arbitrary order.
- `StoreLaws` (`laws.dfy`): laws that relate one handler to another.
- `Server` (`server.dfy`): routing a request to its handler, runs over
  request sequences, and the example session.

The duplicate check in create compares the new task's id with the `id` field
of each stored record. Create then inserts the task under the key `task.ID`.
Under `Valid` these two views agree: the scan finds a match exactly when the
id is a key (`Tasks.ScanIsMembership`). Every transition preserves `Valid`.
Without `Valid` the two views can differ (`Tasks.ScanNeedsInvariant`).

After `log.Fatalf`, the code calls `http.Error` with 500 or 400
(precode.go:74-75, 80-81, 86-87, 102-103). `log.Fatalf` exits the process
first, so that status is never sent. The model has `Aborted` on those
branches and claims no status code for them.

## Model

| member | source | states |
|---|---|---|
| Tasks.Seed | precode.go:21-43 | the starting store holds exactly the ids "1" and "2", each stored under its own id |
| Tasks.ScanIsMembership | precode.go:84-92 | when every key equals its record's id, some record carries `id` iff `id` is a key |
| Tasks.ScanNeedsInvariant | precode.go:84-92 | without the key/id invariant, the record scan and key lookup can disagree |
| Handlers.ListAll | precode.go:47-65 | list answers 200 with a snapshot equal to the whole store and changes nothing |
| Handlers.Create | precode.go:68-95 | an unreadable or undecodable body aborts with the store unchanged; a duplicate id aborts with the store unchanged; a fresh task is added under its id with 201 and an empty body, all other entries unchanged; the key/id invariant is kept |
| Handlers.Get | precode.go:98-120 | get never changes the store; it answers 200 with the stored record iff the id is a key, and aborts as not found otherwise; under the invariant the returned record carries the requested id |
| Handlers.Delete | precode.go:123-143 | delete never aborts; a missing id gives 400 with the store unchanged; a present id gives 200 with the pre-deletion store (which still holds the id), the new store lacks only that id and is one smaller, and the key/id invariant is kept |
| Handlers.ScanForId | precode.go:84-90 | the loop over the stored records reports a match iff some record carries the id |
| Handlers.PostTask | precode.go:68-95 | the create handler with the scan written as a loop makes the same transition as `Create` |
| StoreLaws.CreateRejectsIffKey | precode.go:84-92 | under the key/id invariant, create rejects a decoded task iff its id is already a key |
| StoreLaws.CreateThenGet | precode.go:92-113 | after creating a task with a fresh id, a get of that id answers 200 with exactly that task |
| StoreLaws.CreateTwice | precode.go:84-92 | a second create of the same task is rejected and leaves the store as the first create made it |
| StoreLaws.CreateThenDelete | precode.go:92-136 | deleting a freshly created task gives back the original store, and the delete answer still holds the task |
| StoreLaws.DeleteThenGet | precode.go:100-136 | after deleting a present id, the delete body still maps the id to its old record, and a later get takes the not-found branch |
| StoreLaws.DeleteTwice | precode.go:125-134 | a second delete of the same id answers 400 and changes nothing more |
| StoreLaws.GetAgreesWithList | precode.go:47-113 | get succeeds exactly for the ids in the list answer and returns the same record |
| Server.Handle | precode.go:148-154 | routing keeps the key/id invariant; list, get and aborted requests leave the store unchanged |
| Server.Run | precode.go:50-116 | a run answers at most one outcome per request; every outcome but the last is a reply, and a run that stops early stops at an aborted request |
| Server.RunPreservesValid | precode.go:84-134 | every run of requests from a valid store ends in a valid store |
| Server.RunRecordsSurvive | precode.go:92-134 | every record left after a run was in the starting store under the same key, or came from a create request of the run |
| Server.RunKeepsUndeleted | precode.go:84-134 | under the key/id invariant, a record of the starting store keeps its key and value through any run with no delete request for that key |
| Server.RunAnswersAll | precode.go:123-143 | a run of list and delete requests answers every request |
| Server.RunDeleteThenGet | precode.go:100-136 | delete then get of a present id, as a run: 200 with the pre-deletion store, then the not-found branch |
| Server.RunListFirst | precode.go:47-65 | a list request first does not change what the rest of the run does |
| Server.RunCreateFirst | precode.go:84-94 | a create with a fresh id first answers 201, and the rest of the run starts from the store with the task added |
| Server.ExampleSession | precode.go:68-143 | from a store with exactly ids "1" and "2": create "3" gives 201; list and delete "2" both answer with the store holding "1", "2" and "3"; get "2" takes the not-found branch; "1" and "3" remain |
| Server.SeedSession | precode.go:21-143 | the same session run from the seed store |

## Left out

- HTTP plumbing is not modelled. That covers the response writer, headers, `w.Write` errors and their handling, and the `http.Error` message text. It is I/O; only the status code and an abstract body are kept.
- Routing with `chi` and `chi.URLParam` is not modelled. It is an external library. A request arrives already matched to its route (`Server.Request`), and its id is a plain string.
- JSON is not modelled. Reading and decoding the request body becomes the `Payload` input (`Unreadable`, `Malformed`, `Parsed`). Marshalling is taken to succeed, because a `Task` always marshals, so the 500 branches after `json.Marshal` are not modelled.
- The router construction and `ListenAndServe` (precode.go:146, 156-159) are not modelled: they build the router, start the process and bind the port. The four route registrations (precode.go:148-154) are modelled by `Server.Handle`.
- Concurrency is not modelled. The unsynchronised global map is a data race under concurrent requests. The model is a single sequential store.
- Map iteration order is not modelled. List and delete bodies are maps, not ordered sequences. `ScanForId` visits the records in an arbitrary order.
- Handlers.Create, Handlers.Get: on the branches that call `log.Fatalf`, the model states only "aborted, store unchanged". It does not state the 400 or 500 that the code would write afterwards, because that response is never sent.
- Server.RunRecordsSurvive: states only that a run invents no records. `Server.RunKeepsUndeleted` gives the converse for records of the starting store. The converse for records created during the run is not stated, because a later create or delete in the same run can change the key again and the statement would need the whole trace history.
