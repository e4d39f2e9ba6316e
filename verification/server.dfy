/**
 The service as a sequential state machine: each request is routed to its
 handler, and a run threads the store through a sequence of requests. A
 handler that logs fatally ends the process, so a run stops at the first
 aborted request and later requests receive no answer.
 */
module Server {
  import opened Tasks
  import opened Handlers

  /** A request, already matched to its route. */
  datatype Request =
    | ListReq                       // GET /tasks
    | CreateReq(payload: Payload)   // POST /tasks
    | GetReq(id: string)            // GET /tasks/{id}
    | DeleteReq(id: string)         // DELETE /tasks/{id}

  /** The store after a run, and the answers given, in request order. */
  datatype Trace = Trace(store: Store, outcomes: seq<Outcome>)

  /** Route a request to its handler. */
  function Handle(s: Store, req: Request): (r: Step)
    ensures Valid(s) ==> Valid(r.store)
    // only create and delete change the store, and an aborted request changes nothing
    ensures (req.ListReq? || req.GetReq? || r.outcome.Aborted?) ==> r.store == s
  {
    match req
    case ListReq => ListAll(s)
    case CreateReq(p) => Create(s, p)
    case GetReq(id) => Get(s, id)
    case DeleteReq(id) => Delete(s, id)
  }

  /** Serve `reqs` one after another from store `s`, stopping after the first
      request whose handler aborts. */
  function Run(s: Store, reqs: seq<Request>): (r: Trace)
    ensures |r.outcomes| <= |reqs|
    // every answer but the last is a reply
    ensures forall i :: 0 <= i < |r.outcomes| - 1 ==> r.outcomes[i].Reply?
    // a run that stops early stops at an aborted request
    ensures |r.outcomes| < |reqs| ==> |r.outcomes| > 0 && r.outcomes[|r.outcomes| - 1].Aborted?
    decreases |reqs|
  {
    if reqs == [] then
      Trace(s, [])
    else
      var step := Handle(s, reqs[0]);
      if step.outcome.Aborted? then
        Trace(step.store, [step.outcome])
      else
        var rest := Run(step.store, reqs[1..]);
        Trace(rest.store, [step.outcome] + rest.outcomes)
  }

  /** The tasks carried by the decodable create requests of `reqs`. */
  function CreatedTasks(reqs: seq<Request>): set<Task>
    decreases |reqs|
  {
    if reqs == [] then {}
    else
      var here := if reqs[0].CreateReq? && reqs[0].payload.Parsed? then {reqs[0].payload.task} else {};
      here + CreatedTasks(reqs[1..])
  }

  /** Every run keeps the key/ID invariant. */
  lemma {:induction false} RunPreservesValid(s: Store, reqs: seq<Request>)
    requires Valid(s)
    ensures Valid(Run(s, reqs).store)
    decreases |reqs|
  {
    if reqs != [] {
      var step := Handle(s, reqs[0]);
      if !step.outcome.Aborted? {
        RunPreservesValid(step.store, reqs[1..]);
      }
    }
  }

  /** A run invents nothing: every record left in the store either was there
      from the start under the same key, or came from a create request of the
      run. */
  lemma {:induction false} RunRecordsSurvive(s: Store, reqs: seq<Request>)
    ensures var s' := Run(s, reqs).store;
      forall k :: k in s' ==> (k in s && s'[k] == s[k]) || s'[k] in CreatedTasks(reqs)
    decreases |reqs|
  {
    if reqs != [] {
      var step := Handle(s, reqs[0]);
      if !step.outcome.Aborted? {
        RunRecordsSurvive(step.store, reqs[1..]);
        var s' := Run(s, reqs).store;
        forall k | k in s'
          ensures (k in s && s'[k] == s[k]) || s'[k] in CreatedTasks(reqs)
        {
          if !(s'[k] in CreatedTasks(reqs[1..])) {
            assert k in step.store && s'[k] == step.store[k];
            match reqs[0]
            case CreateReq(p) =>
              if p.Parsed? && k == p.task.id && !IdTaken(s, p.task.id) {
                assert s'[k] == p.task;
              }
            case DeleteReq(id) =>
              assert SameExcept(s, step.store, id);
              assert (s - {id})[k] == (step.store - {id})[k];
            case _ =>
          }
        }
      }
    }
  }

  /** The other side of `RunRecordsSurvive`: under the key/ID invariant, a
      record of the starting store is still there, unchanged, after a run
      that never asks to delete its key. A create with the same identifier
      is rejected as a duplicate and cannot overwrite it. */
  lemma {:induction false} RunKeepsUndeleted(s: Store, reqs: seq<Request>, k: string)
    requires Valid(s) && k in s
    requires forall i :: 0 <= i < |reqs| ==> reqs[i] != DeleteReq(k)
    ensures k in Run(s, reqs).store && Run(s, reqs).store[k] == s[k]
    decreases |reqs|
  {
    if reqs != [] {
      var step := Handle(s, reqs[0]);
      if reqs[0].CreateReq? && reqs[0].payload.Parsed? {
        ScanIsMembership(s, reqs[0].payload.task.id);
      }
      assert k in step.store && step.store[k] == s[k];
      if !step.outcome.Aborted? {
        assert forall i :: 0 <= i < |reqs[1..]| ==> reqs[1..][i] == reqs[i + 1];
        RunKeepsUndeleted(step.store, reqs[1..], k);
      }
    }
  }

  /** A run of list and delete requests answers every request. */
  lemma {:induction false} RunAnswersAll(s: Store, reqs: seq<Request>)
    requires forall i :: 0 <= i < |reqs| ==> reqs[i].ListReq? || reqs[i].DeleteReq?
    ensures |Run(s, reqs).outcomes| == |reqs|
    decreases |reqs|
  {
    if reqs != [] {
      RunAnswersAll(Handle(s, reqs[0]).store, reqs[1..]);
    }
  }

  /** Deleting a stored identifier and then asking for it, as a run: the
      delete answers with the store as it was, and the get takes the
      not-found branch, which logs fatally and ends the run. */
  lemma RunDeleteThenGet(s: Store, id: string)
    requires id in s
    ensures Run(s, [DeleteReq(id), GetReq(id)])
      == Trace(s - {id}, [Reply(StatusOK, Snapshot(s)), Aborted(NotFound)])
  {
  }

  /** Listing before a request changes nothing about what that request does. */
  lemma RunListFirst(s: Store, reqs: seq<Request>)
    ensures Run(s, [ListReq] + reqs)
      == Trace(Run(s, reqs).store, [Reply(StatusOK, Snapshot(s))] + Run(s, reqs).outcomes)
  {
  }

  /** Creating a task with an identifier no record carries, as the first
      request of a run: it answers 201, and the rest of the run starts from the
      store with the task added. */
  lemma RunCreateFirst(s: Store, t: Task, reqs: seq<Request>)
    requires !IdTaken(s, t.id)
    ensures var rest := Run(s[t.id := t], reqs);
      Run(s, [CreateReq(Parsed(t))] + reqs)
        == Trace(rest.store, [Reply(StatusCreated, Empty)] + rest.outcomes)
  {
  }

  /** The example session of the service, from any store holding exactly the
      records "1" and "2": create task "3", list, delete "2", then get "2". The
      delete answers with the store as it was before the removal, and the final
      get takes the not-found branch. */
  lemma ExampleSession(s0: Store, t3: Task)
    requires Valid(s0) && s0.Keys == {"1", "2"} && t3.id == "3"
    ensures var reqs := [CreateReq(Parsed(t3)), ListReq, DeleteReq("2"), GetReq("2")];
      var tr := Run(s0, reqs);
      && tr.outcomes == [
           Reply(StatusCreated, Empty),
           Reply(StatusOK, Snapshot(s0["3" := t3])),
           Reply(StatusOK, Snapshot(s0["3" := t3])),
           Aborted(NotFound)]
      && tr.store.Keys == {"1", "3"}
  {
    var s1 := s0["3" := t3];
    var tail := [DeleteReq("2"), GetReq("2")];
    var reqs := [CreateReq(Parsed(t3)), ListReq, DeleteReq("2"), GetReq("2")];
    var o0, o1, o3 := Reply(StatusCreated, Empty), Reply(StatusOK, Snapshot(s1)), Aborted(NotFound);
    calc {
      Run(s0, reqs);
    ==  { assert reqs == [CreateReq(Parsed(t3))] + ([ListReq] + tail);
          ScanIsMembership(s0, "3");
          RunCreateFirst(s0, t3, [ListReq] + tail); }
      Trace(Run(s1, [ListReq] + tail).store, [o0] + Run(s1, [ListReq] + tail).outcomes);
    ==  { RunListFirst(s1, tail); }
      Trace(Run(s1, tail).store, [o0] + ([o1] + Run(s1, tail).outcomes));
    ==  { RunDeleteThenGet(s1, "2"); }
      Trace(s1 - {"2"}, [o0] + ([o1] + [o1, o3]));
    ==  { assert [o0] + ([o1] + [o1, o3]) == [o0, o1, o1, o3]; }
      Trace(s1 - {"2"}, [o0, o1, o1, o3]);
    }
    assert (s1 - {"2"}).Keys == {"1", "3"};
  }

  /** The example session run from the seed store. */
  lemma SeedSession()
    ensures var t3 := Task("3", "x", "y", ["A"]);
      var tr := Run(Seed(), [CreateReq(Parsed(t3)), ListReq, DeleteReq("2"), GetReq("2")]);
      && tr.outcomes == [
           Reply(StatusCreated, Empty),
           Reply(StatusOK, Snapshot(Seed()["3" := t3])),
           Reply(StatusOK, Snapshot(Seed()["3" := t3])),
           Aborted(NotFound)]
      && tr.store.Keys == {"1", "3"}
  {
    var s0 := Seed();
    ExampleSession(s0, Task("3", "x", "y", ["A"]));
  }
}
