/** The optimistic edits of the task list against the server's edits of the
    table: when the local list is the caller's last `getTasks` result and the
    mutation succeeds, the refetch returns exactly the optimistic list. */
module Reconcile {
  import opened Tasks

  /** Setting a status on the table and then listing the caller's rows is the
      same as setting it on the caller's list. */
  lemma {:induction false} OptimisticUpdateMatchesRefetch(rows: seq<Task>, caller: UserId, id: int, status: TodoStatus)
    ensures OwnedBy(WithStatus(rows, id, status), caller) == WithStatus(OwnedBy(rows, caller), id, status)
  {
    if rows != [] {
      OptimisticUpdateMatchesRefetch(rows[1..], caller, id, status);
      var edited := WithStatus(rows, id, status);
      assert edited == [edited[0]] + WithStatus(rows[1..], id, status);
      assert edited[1..] == WithStatus(rows[1..], id, status);
      if rows[0].userId == caller {
        var mine := OwnedBy(rows, caller);
        assert mine == [rows[0]] + OwnedBy(rows[1..], caller);
        assert mine[1..] == OwnedBy(rows[1..], caller);
      }
    }
  }

  /** Deleting from the table and then listing the caller's rows is the same
      as deleting from the caller's list. */
  lemma {:induction false} OptimisticDeleteMatchesRefetch(rows: seq<Task>, caller: UserId, id: int)
    ensures OwnedBy(WithoutId(rows, id), caller) == WithoutId(OwnedBy(rows, caller), id)
  {
    if rows != [] {
      OptimisticDeleteMatchesRefetch(rows[1..], caller, id);
      if rows[0].id != id {
        var kept := WithoutId(rows, id);
        assert kept == [rows[0]] + WithoutId(rows[1..], id);
        assert kept[1..] == WithoutId(rows[1..], id);
      }
      if rows[0].userId == caller {
        var mine := OwnedBy(rows, caller);
        assert mine == [rows[0]] + OwnedBy(rows[1..], caller);
        assert mine[1..] == OwnedBy(rows[1..], caller);
      }
    }
  }
}
