/**
 Laws relating the handlers to each other: what a later request observes of
 an earlier one, and how the duplicate check of create relates to key
 membership.
 */
module StoreLaws {
  import opened Tasks
  import opened Handlers

  /** Under the key/ID invariant, create rejects a decoded task exactly when
      its identifier is already a key of the store. */
  lemma CreateRejectsIffKey(s: Store, t: Task)
    requires Valid(s)
    ensures Create(s, Parsed(t)).outcome.Aborted? <==> t.id in s
    ensures Create(s, Parsed(t)).outcome.Reply? <==> t.id !in s
  {
  }

  /** Creating a task whose identifier no record carries, then getting that
      identifier, answers 200 with exactly that task. */
  lemma CreateThenGet(s: Store, t: Task)
    requires !IdTaken(s, t.id)
    ensures var s' := Create(s, Parsed(t)).store;
      Get(s', t.id) == Step(s', Reply(StatusOK, Single(t)))
  {
  }

  /** Creating the same task twice: the second request is rejected and leaves
      the store as the first one made it. */
  lemma CreateTwice(s: Store, t: Task)
    requires !IdTaken(s, t.id)
    ensures var s' := Create(s, Parsed(t)).store;
      Create(s', Parsed(t)) == Step(s', Aborted(AlreadyExists))
  {
  }

  /** Delete undoes create: adding a fresh task and then deleting its
      identifier gives back the original store, and the delete answers with
      the store that still holds the task. */
  lemma CreateThenDelete(s: Store, t: Task)
    requires Valid(s) && t.id !in s
    ensures var s' := Create(s, Parsed(t)).store;
      && Delete(s', t.id).store == s
      && Delete(s', t.id).outcome == Reply(StatusOK, Snapshot(s[t.id := t]))
  {
  }

  /** After a successful delete the identifier is gone: a later get takes the
      not-found branch, and the delete's own answer still lists the record. */
  lemma DeleteThenGet(s: Store, id: string)
    requires id in s
    ensures var d := Delete(s, id);
      && d.outcome.body.Snapshot?
      && id in d.outcome.body.tasks
      && d.outcome.body.tasks[id] == s[id]
      && Get(d.store, id).outcome == Aborted(NotFound)
  {
  }

  /** Deleting twice changes the store no more than deleting once; the second
      request answers 400. */
  lemma DeleteTwice(s: Store, id: string)
    ensures var s' := Delete(s, id).store;
      Delete(s', id) == Step(s', Reply(StatusBadRequest, ErrorText(NotFound)))
  {
  }

  /** Get and list agree: get finds exactly the identifiers the list answer
      holds, and returns the same record for each. */
  lemma GetAgreesWithList(s: Store, id: string)
    ensures var snapshot := ListAll(s).outcome.body.tasks;
      && (Get(s, id).outcome.Reply? <==> id in snapshot)
      && (id in snapshot ==> Get(s, id).outcome.body.task == snapshot[id])
  {
  }
}
