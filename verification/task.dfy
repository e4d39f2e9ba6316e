/**
 This module defines the task record, the in-memory task store and the
 key/ID invariant that ties the two together.

 The store is a map from a task identifier to a task record. Nothing in the
 map type itself forces a record to sit under its own identifier; `Valid`
 states that it does, and every handler of the service keeps it.
 */
module Tasks {

  /** A unit of work: identifier, free-text description and note, and the
      ordered list of tools associated with it. */
  datatype Task = Task(
    id: string,
    description: string,
    note: string,
    applications: seq<string>
  )

  /** The process-wide task store, keyed by task identifier. */
  type Store = map<string, Task>

  /** The key/ID invariant: every record is stored under its own identifier. */
  predicate Valid(s: Store) {
    forall k :: k in s ==> s[k].id == k
  }

  /** True iff some stored record carries the identifier `id`, whatever key it
      is stored under. This is what the duplicate check of the create handler
      asks, since it looks at the records and not at the keys. */
  predicate IdTaken(s: Store, id: string) {
    exists k :: k in s && s[k].id == id
  }

  /** `s'` agrees with `s` on every key other than `id`: the same keys are
      present and they map to the same records. */
  predicate SameExcept(s: Store, s': Store, id: string) {
    s - {id} == s' - {id}
  }

  /** The store the service starts with: two records, under "1" and "2". */
  function Seed(): (s: Store)
    ensures Valid(s)
    ensures s.Keys == {"1", "2"}
    ensures IdTaken(s, "1") && IdTaken(s, "2")
  {
    map[
      "1" := Task(
        "1",
        "Сделать финальное задание темы REST API",
        "Если сегодня сделаю, то завтра будет свободный день. Ура!",
        ["VS Code", "Terminal", "git"]),
      "2" := Task(
        "2",
        "Протестировать финальное задание с помощью Postmen",
        "Лучше это делать в процессе разработки, каждый раз, когда запускаешь сервер и проверяешь хендлер",
        ["VS Code", "Terminal", "git", "Postman"])
    ]
  }

  /** Under the key/ID invariant, asking whether some record carries `id` is
      the same as asking whether `id` is a key. */
  lemma ScanIsMembership(s: Store, id: string)
    requires Valid(s)
    ensures IdTaken(s, id) <==> id in s
  {
  }

  /** Without the invariant the two questions come apart: a record stored under
      a key other than its identifier is seen by the scan but not by a lookup. */
  lemma ScanNeedsInvariant()
    ensures var s := map["a" := Task("b", "", "", [])];
      IdTaken(s, "b") && "b" !in s && !Valid(s)
  {
    var s := map["a" := Task("b", "", "", [])];
    assert s["a"].id == "b";
  }
}
