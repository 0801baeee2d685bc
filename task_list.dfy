/** The state of the task-list component: the local copy of the tasks, the
    chosen sort option and direction, and the handlers that change them. */
module TaskListView {
  import opened Tasks
  import opened TaskOrder

  /** The sort selection as one value, for reasoning about sequences of clicks. */
  datatype SortState = SortState(sortBy: SortOption, sortDirection: SortDirection)

  const InitialSort: SortState := SortState(TodoStatus, Asc)

  function Flip(d: SortDirection): (r: SortDirection)
    ensures r != d
  {
    if d == Desc then Asc else Desc
  }

  /** `changeSortOption`: the current option flips the direction, another
      option is selected with direction desc. */
  function NextSort(st: SortState, option: SortOption): (r: SortState)
    ensures r.sortBy == option
    ensures option == st.sortBy ==> r.sortDirection != st.sortDirection
    ensures option != st.sortBy ==> r.sortDirection == Desc
  {
    if st.sortBy == option then st.(sortDirection := Flip(st.sortDirection))
    else SortState(option, Desc)
  }

  /** Choosing the same option twice restores the state. */
  lemma ChooseCurrentTwice(st: SortState)
    ensures NextSort(NextSort(st, st.sortBy), st.sortBy) == st
  {
  }

  /** Choosing a new option twice sorts by it ascending. */
  lemma ChooseNewTwice(st: SortState, option: SortOption)
    requires option != st.sortBy
    ensures NextSort(NextSort(st, option), option) == SortState(option, Asc)
  {
  }

  /** The checkbox of a task maps to the status sent to the server. */
  function StatusForCheckbox(isCompleted: bool): (r: TodoStatus)
    ensures r == Completed <==> isCompleted
  {
    if isCompleted then Completed else Pending
  }

  class TaskList {
    var tasks: seq<Task>
    var sortBy: SortOption
    var sortDirection: SortDirection

    /** The component mounts sorted by status, ascending, on its prop. */
    constructor (initialTasks: seq<Task>)
      ensures tasks == initialTasks
      ensures SortState(sortBy, sortDirection) == InitialSort
    {
      tasks := initialTasks;
      sortBy := TodoStatus;
      sortDirection := Asc;
    }

    /** The effect on `initialTasks`: a new prop replaces the local tasks wholesale. */
    method SyncTasks(initialTasks: seq<Task>)
      modifies this
      ensures tasks == initialTasks
      ensures sortBy == old(sortBy) && sortDirection == old(sortDirection)
    {
      tasks := initialTasks;
    }

    method ToggleSortDirection()
      modifies this
      ensures sortDirection == Flip(old(sortDirection))
      ensures tasks == old(tasks) && sortBy == old(sortBy)
    {
      sortDirection := Flip(sortDirection);
    }

    method ChangeSortOption(option: SortOption)
      modifies this
      ensures SortState(sortBy, sortDirection) == NextSort(old(SortState(sortBy, sortDirection)), option)
      ensures tasks == old(tasks)
    {
      if sortBy == option {
        ToggleSortDirection();
      } else {
        sortBy := option;
        sortDirection := Desc;
      }
    }

    /** `onMutate` of the status update: the snapshot is whatever the query
        cache holds (`cached`), not the local tasks; the local tasks get the
        new status on every entry with that id. */
    method OnMutateUpdateStatus(id: int, todoStatus: TodoStatus, cached: Option<seq<Task>>)
      returns (previousTasks: Option<seq<Task>>)
      modifies this
      ensures previousTasks == cached
      ensures tasks == WithStatus(old(tasks), id, todoStatus)
      ensures sortBy == old(sortBy) && sortDirection == old(sortDirection)
    {
      previousTasks := cached;
      tasks := WithStatus(tasks, id, todoStatus);
    }

    /** `onMutate` of the delete: the local tasks lose every entry with that id. */
    method OnMutateDelete(id: int, cached: Option<seq<Task>>)
      returns (previousTasks: Option<seq<Task>>)
      modifies this
      ensures previousTasks == cached
      ensures tasks == WithoutId(old(tasks), id)
      ensures sortBy == old(sortBy) && sortDirection == old(sortDirection)
    {
      previousTasks := cached;
      tasks := WithoutId(tasks, id);
    }

    /** `onError` of both mutations: `context?.previousTasks` is truthy for
        any array, even an empty one, so a present snapshot is restored. */
    method OnError(previousTasks: Option<seq<Task>>)
      modifies this
      ensures previousTasks.Some? ==> tasks == previousTasks.value
      ensures previousTasks.None? ==> tasks == old(tasks)
      ensures sortBy == old(sortBy) && sortDirection == old(sortDirection)
    {
      var context := if previousTasks.Some? then Object else Undefined;
      if ToBoolean(context) {
        tasks := previousTasks.value;
      }
    }

    /** `sortedTasks`: the display order, computed on a copy of `tasks`. */
    function SortedTasks(): (r: seq<Task>)
      reads this
      ensures multiset(r) == multiset(tasks)
    {
      SortTasksIsPermutation(tasks, sortBy, sortDirection);
      SortTasks(tasks, sortBy, sortDirection)
    }
  }

  /** A failed delete whose snapshot is the list it started from brings the
      removed task back at its position. */
  method DeleteThenFail(view: TaskList, id: int)
    modifies view
    ensures view.tasks == old(view.tasks)
  {
    var before := view.tasks;
    var context := view.OnMutateDelete(id, Some(before));
    view.OnError(context);
  }

  /** Clicking the current option twice leaves the sort selection as it was. */
  method ToggleTwice(view: TaskList)
    modifies view
    ensures view.sortBy == old(view.sortBy) && view.sortDirection == old(view.sortDirection)
    ensures view.tasks == old(view.tasks)
  {
    var option := view.sortBy;
    ChooseCurrentTwice(SortState(view.sortBy, view.sortDirection));
    view.ChangeSortOption(option);
    view.ChangeSortOption(option);
  }
}
