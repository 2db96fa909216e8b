/**
 * The memory record exchanged between the back end and the front end:
 * the JSON object `{ "id": …, "text": …, "category": … }` that the back end
 * keeps in its list and that `GET /galaxy` returns.
 */
module Records {

  datatype Memory = Memory(id: int, text: string, category: string)

  /** The ids of `ms` are 1, 2, …, |ms| in list order. */
  predicate IdsConsecutive(ms: seq<Memory>)
  {
    forall i :: 0 <= i < |ms| ==> ms[i].id == i + 1
  }

  /** No two records of `ms` share an id. */
  predicate IdsUnique(ms: seq<Memory>)
  {
    forall i, j :: 0 <= i < |ms| && 0 <= j < |ms| && i != j ==> ms[i].id != ms[j].id
  }

  lemma ConsecutiveIdsAreUnique(ms: seq<Memory>)
    requires IdsConsecutive(ms)
    ensures IdsUnique(ms)
  {
  }
}
