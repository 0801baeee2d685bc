/** The display order of the task list: the comparator of `sortedTasks` and
    the stable sort that `Array.prototype.sort` performs with it. */
module TaskOrder {
  import opened Tasks

  datatype SortOption = Priority | DueDate | TodoStatus | Title

  datatype SortDirection = Asc | Desc

  /** `Number.MAX_SAFE_INTEGER`, the stand-in date of an undated task. */
  const MaxSafeInteger: int := 9_007_199_254_740_991

  /** Lower-case of one character; only the ASCII letters are mapped. */
  function LowerChar(c: char): char {
    if 'A' <= c <= 'Z' then (c as int + 32) as char else c
  }

  function ToLower(s: string): string {
    if s == [] then [] else [LowerChar(s[0])] + ToLower(s[1..])
  }

  /** `{ high: 3, medium: 2, low: 1, null: 0 }[priority?.toLowerCase() ?? 'null'] ?? 0` */
  function PriorityRank(p: Option<string>): int {
    var key := if p.Some? then ToLower(p.value) else "null";
    if key == "high" then 3
    else if key == "medium" then 2
    else if key == "low" then 1
    else 0
  }

  /** `{ completed: 1, pending: 0 }[todoStatus?.toLowerCase() ?? 'pending'] ?? 0` */
  function StatusRank(s: Option<string>): int {
    var key := if s.Some? then ToLower(s.value) else "pending";
    if key == "completed" then 1 else 0
  }

  /** `dueDate ? new Date(dueDate).getTime() : Number.MAX_SAFE_INTEGER` */
  function DueRank(d: Option<Timestamp>): int {
    if d.Some? then d.value else MaxSafeInteger
  }

  /** Stand-in for `String.prototype.localeCompare`: lexicographic order of
      character codes, giving -1, 0 or 1. */
  function LocaleCompare(x: string, y: string): int {
    if x == [] && y == [] then 0
    else if x == [] then -1
    else if y == [] then 1
    else if x[0] < y[0] then -1
    else if x[0] > y[0] then 1
    else LocaleCompare(x[1..], y[1..])
  }

  /** The value a task is compared on under a sort option. */
  datatype SortKey = Rank(n: int) | Text(s: string)

  function Key(t: Task, opt: SortOption): SortKey {
    match opt
    case Priority => Rank(PriorityRank(t.priority))
    case DueDate => Rank(DueRank(t.dueDate))
    case TodoStatus => Rank(StatusRank(t.todoStatus))
    case Title => Text(t.title)
  }

  /** `comparison` in `sortedTasks`, before the direction is applied. */
  function Compare(a: Task, b: Task, opt: SortOption): int {
    match opt
    case Priority => PriorityRank(a.priority) - PriorityRank(b.priority)
    case DueDate => DueRank(a.dueDate) - DueRank(b.dueDate)
    case TodoStatus => StatusRank(a.todoStatus) - StatusRank(b.todoStatus)
    case Title => LocaleCompare(a.title, b.title)
  }

  /** `sortDirection === 'asc' ? comparison : -comparison` */
  function Directed(c: int, dir: SortDirection): int {
    if dir == Asc then c else -c
  }

  /** The comparator lets `a` stand before `b`. */
  predicate Precedes(a: Task, b: Task, opt: SortOption, dir: SortDirection) {
    Directed(Compare(a, b, opt), dir) <= 0
  }

  /** Places `x` in front of the first element it may precede; `x` goes
      before elements it ties with, which keeps the sort stable. */
  function Insert(x: Task, s: seq<Task>, opt: SortOption, dir: SortDirection): (r: seq<Task>)
    ensures |r| == |s| + 1
  {
    if s == [] then [x]
    else if Precedes(x, s[0], opt, dir) then [x] + s
    else [s[0]] + Insert(x, s[1..], opt, dir)
  }

  /** `[...tasks].sort(comparator)`: a new sequence, `tasks` is untouched. */
  function SortTasks(s: seq<Task>, opt: SortOption, dir: SortDirection): (r: seq<Task>)
    ensures |r| == |s|
  {
    if s == [] then [] else Insert(s[0], SortTasks(s[1..], opt, dir), opt, dir)
  }

  ghost predicate IsSorted(s: seq<Task>, opt: SortOption, dir: SortDirection) {
    forall i, j :: 0 <= i < j < |s| ==> Precedes(s[i], s[j], opt, dir)
  }

  /** The tasks of `s` whose sort key is `k`, in their order in `s`. */
  function WithKey(s: seq<Task>, opt: SortOption, k: SortKey): seq<Task> {
    if s == [] then []
    else (if Key(s[0], opt) == k then [s[0]] else []) + WithKey(s[1..], opt, k)
  }

  /** Tasks with equal keys appear in `r` in the order they have in `s`. */
  ghost predicate KeepsTieOrder(r: seq<Task>, s: seq<Task>, opt: SortOption) {
    forall k :: WithKey(r, opt, k) == WithKey(s, opt, k)
  }

  // ---------------------------------------------------------------------
  // The comparator is a total preorder whose ties are exactly equal keys.

  lemma {:induction false} LocaleCompareAntisymmetric(x: string, y: string)
    ensures LocaleCompare(x, y) == -LocaleCompare(y, x)
    decreases |x|
  {
    if x != [] && y != [] && x[0] == y[0] {
      LocaleCompareAntisymmetric(x[1..], y[1..]);
    }
  }

  lemma {:induction false} LocaleCompareZero(x: string, y: string)
    ensures LocaleCompare(x, y) == 0 <==> x == y
    decreases |x|
  {
    if x != [] && y != [] && x[0] == y[0] {
      LocaleCompareZero(x[1..], y[1..]);
      assert x == [x[0]] + x[1..] && y == [y[0]] + y[1..];
    }
  }

  lemma {:induction false} LocaleCompareTransitive(x: string, y: string, z: string)
    requires LocaleCompare(x, y) <= 0 && LocaleCompare(y, z) <= 0
    ensures LocaleCompare(x, z) <= 0
    decreases |x|
  {
    if x != [] && y != [] && z != [] && x[0] == y[0] == z[0] {
      LocaleCompareTransitive(x[1..], y[1..], z[1..]);
    }
  }

  lemma CompareAntisymmetric(a: Task, b: Task, opt: SortOption)
    ensures Compare(a, b, opt) == -Compare(b, a, opt)
  {
    if opt == Title { LocaleCompareAntisymmetric(a.title, b.title); }
  }

  /** A tie under the comparator is exactly an equal sort key. */
  lemma CompareZeroIffSameKey(a: Task, b: Task, opt: SortOption)
    ensures Compare(a, b, opt) == 0 <==> Key(a, opt) == Key(b, opt)
  {
    if opt == Title { LocaleCompareZero(a.title, b.title); }
  }

  lemma PrecedesTotal(a: Task, b: Task, opt: SortOption, dir: SortDirection)
    ensures Precedes(a, b, opt, dir) || Precedes(b, a, opt, dir)
    ensures !Precedes(a, b, opt, dir) ==> Key(a, opt) != Key(b, opt)
  {
    CompareAntisymmetric(a, b, opt);
    CompareZeroIffSameKey(a, b, opt);
  }

  lemma PrecedesTransitive(a: Task, b: Task, c: Task, opt: SortOption, dir: SortDirection)
    requires Precedes(a, b, opt, dir) && Precedes(b, c, opt, dir)
    ensures Precedes(a, c, opt, dir)
  {
    if opt == Title {
      if dir == Asc {
        LocaleCompareTransitive(a.title, b.title, c.title);
      } else {
        LocaleCompareAntisymmetric(a.title, b.title);
        LocaleCompareAntisymmetric(b.title, c.title);
        LocaleCompareAntisymmetric(a.title, c.title);
        LocaleCompareTransitive(c.title, b.title, a.title);
      }
    }
  }

  lemma PrecedesBothWaysSameKey(a: Task, b: Task, opt: SortOption, dir: SortDirection)
    requires Precedes(a, b, opt, dir) && Precedes(b, a, opt, dir)
    ensures Key(a, opt) == Key(b, opt)
  {
    CompareAntisymmetric(a, b, opt);
    CompareZeroIffSameKey(a, b, opt);
  }

  // ---------------------------------------------------------------------
  // Insertion keeps the multiset, the order and the order of ties.

  lemma {:induction false} InsertPermutation(x: Task, s: seq<Task>, opt: SortOption, dir: SortDirection)
    ensures multiset(Insert(x, s, opt, dir)) == multiset(s) + multiset{x}
  {
    if s != [] && !Precedes(x, s[0], opt, dir) {
      InsertPermutation(x, s[1..], opt, dir);
      assert s == [s[0]] + s[1..];
    }
  }

  lemma {:induction false} InsertSorted(x: Task, s: seq<Task>, opt: SortOption, dir: SortDirection)
    requires IsSorted(s, opt, dir)
    ensures IsSorted(Insert(x, s, opt, dir), opt, dir)
  {
    if s == [] {
    } else if Precedes(x, s[0], opt, dir) {
      var r := [x] + s;
      forall i, j | 0 <= i < j < |r| ensures Precedes(r[i], r[j], opt, dir) {
        if i == 0 && j > 1 { PrecedesTransitive(x, s[0], s[j - 1], opt, dir); }
      }
    } else {
      var rest := Insert(x, s[1..], opt, dir);
      InsertSorted(x, s[1..], opt, dir);
      InsertPermutation(x, s[1..], opt, dir);
      PrecedesTotal(x, s[0], opt, dir);
      var r := [s[0]] + rest;
      forall j | 0 < j < |r| ensures Precedes(s[0], r[j], opt, dir) {
        assert r[j] in multiset(rest);
        if r[j] != x {
          assert r[j] in multiset(s[1..]);
          var m :| 0 <= m < |s[1..]| && s[1..][m] == r[j];
          assert s[m + 1] == r[j];
        }
      }
    }
  }

  lemma {:induction false} InsertWithKey(x: Task, s: seq<Task>, opt: SortOption, dir: SortDirection, k: SortKey)
    ensures WithKey(Insert(x, s, opt, dir), opt, k) == (if Key(x, opt) == k then [x] else []) + WithKey(s, opt, k)
  {
    var hx := if Key(x, opt) == k then [x] else [];
    if s == [] {
      assert WithKey([x], opt, k) == hx + WithKey([x][1..], opt, k);
    } else if Precedes(x, s[0], opt, dir) {
      assert ([x] + s)[1..] == s;
      assert WithKey([x] + s, opt, k) == hx + WithKey(s, opt, k);
    } else {
      var rest := Insert(x, s[1..], opt, dir);
      InsertWithKey(x, s[1..], opt, dir, k);
      PrecedesTotal(x, s[0], opt, dir);
      assert ([s[0]] + rest)[1..] == rest;
      WithKeyPassOver(x, s, rest, opt, k);
    }
  }

  lemma WithKeyCons(t: Task, s: seq<Task>, opt: SortOption, k: SortKey)
    ensures WithKey([t] + s, opt, k) == (if Key(t, opt) == k then [t] else []) + WithKey(s, opt, k)
  {
    assert ([t] + s)[1..] == s;
  }

  /** Moving `x` past a head with a different key leaves each key's tasks in order. */
  lemma WithKeyPassOver(x: Task, s: seq<Task>, rest: seq<Task>, opt: SortOption, k: SortKey)
    requires s != [] && Key(x, opt) != Key(s[0], opt)
    requires WithKey(rest, opt, k) == (if Key(x, opt) == k then [x] else []) + WithKey(s[1..], opt, k)
    ensures WithKey([s[0]] + rest, opt, k) == (if Key(x, opt) == k then [x] else []) + WithKey(s, opt, k)
  {
    var hx := if Key(x, opt) == k then [x] else [];
    var h0 := if Key(s[0], opt) == k then [s[0]] else [];
    WithKeyCons(s[0], rest, opt, k);
    assert s == [s[0]] + s[1..];
    WithKeyCons(s[0], s[1..], opt, k);
    SwapDisjoint(h0, hx, WithKey(s[1..], opt, k));
  }

  lemma SwapDisjoint<T>(a: seq<T>, b: seq<T>, w: seq<T>)
    requires a == [] || b == []
    ensures a + (b + w) == b + (a + w)
  {
  }

  // ---------------------------------------------------------------------
  // What `sortedTasks` promises.

  /** The sorted list holds exactly the tasks of the input, with multiplicity. */
  lemma {:induction false} SortTasksIsPermutation(s: seq<Task>, opt: SortOption, dir: SortDirection)
    ensures multiset(SortTasks(s, opt, dir)) == multiset(s)
  {
    if s != [] {
      SortTasksIsPermutation(s[1..], opt, dir);
      InsertPermutation(s[0], SortTasks(s[1..], opt, dir), opt, dir);
      assert s == [s[0]] + s[1..];
    }
  }

  /** Every task may precede every later task under the directed comparator. */
  lemma {:induction false} SortTasksIsSorted(s: seq<Task>, opt: SortOption, dir: SortDirection)
    ensures IsSorted(SortTasks(s, opt, dir), opt, dir)
  {
    if s != [] {
      SortTasksIsSorted(s[1..], opt, dir);
      InsertSorted(s[0], SortTasks(s[1..], opt, dir), opt, dir);
    }
  }

  /** Tasks with equal keys keep their input order, in both directions. */
  lemma {:induction false} SortTasksIsStable(s: seq<Task>, opt: SortOption, dir: SortDirection)
    ensures KeepsTieOrder(SortTasks(s, opt, dir), s, opt)
  {
    if s != [] {
      SortTasksIsStable(s[1..], opt, dir);
      forall k ensures WithKey(SortTasks(s, opt, dir), opt, k) == WithKey(s, opt, k) {
        InsertWithKey(s[0], SortTasks(s[1..], opt, dir), opt, dir, k);
      }
    }
  }

  lemma SortedHeadFirst(s: seq<Task>, x: Task, opt: SortOption, dir: SortDirection)
    requires IsSorted(s, opt, dir) && x in s
    ensures Precedes(s[0], x, opt, dir)
  {
    var i :| 0 <= i < |s| && s[i] == x;
    if i == 0 { PrecedesTotal(x, x, opt, dir); }
  }

  lemma TailsKeepTieOrder(a: seq<Task>, b: seq<Task>, opt: SortOption)
    requires a != [] && b != [] && a[0] == b[0]
    requires KeepsTieOrder(a, b, opt)
    ensures KeepsTieOrder(a[1..], b[1..], opt)
  {
    forall k ensures WithKey(a[1..], opt, k) == WithKey(b[1..], opt, k) {
      var p := if Key(a[0], opt) == k then [a[0]] else [];
      assert WithKey(a, opt, k) == p + WithKey(a[1..], opt, k);
      assert WithKey(b, opt, k) == p + WithKey(b[1..], opt, k);
      assert (p + WithKey(a[1..], opt, k))[|p|..] == WithKey(a[1..], opt, k);
      assert (p + WithKey(b[1..], opt, k))[|p|..] == WithKey(b[1..], opt, k);
    }
  }

  lemma TailsArePermutations(a: seq<Task>, b: seq<Task>)
    requires a != [] && b != [] && a[0] == b[0]
    requires multiset(a) == multiset(b)
    ensures multiset(a[1..]) == multiset(b[1..])
  {
    assert a == [a[0]] + a[1..] && b == [b[0]] + b[1..];
    assert multiset(a[1..]) == multiset(a) - multiset{a[0]};
    assert multiset(b[1..]) == multiset(b) - multiset{b[0]};
  }

  lemma SortedTail(s: seq<Task>, opt: SortOption, dir: SortDirection)
    requires s != [] && IsSorted(s, opt, dir)
    ensures IsSorted(s[1..], opt, dir)
  {
    forall i, j | 0 <= i < j < |s| - 1 ensures Precedes(s[1..][i], s[1..][j], opt, dir) {
      assert s[1..][i] == s[i + 1] && s[1..][j] == s[j + 1];
    }
  }

  /** A permutation that is sorted and keeps the order of ties is unique, so
      any stable sort with this comparator (as `Array.prototype.sort` has been
      since the 2019 edition of ECMA-262) yields exactly `SortTasks`. */
  lemma {:induction false} StableSortIsUnique(a: seq<Task>, b: seq<Task>, opt: SortOption, dir: SortDirection)
    requires multiset(a) == multiset(b)
    requires IsSorted(a, opt, dir) && IsSorted(b, opt, dir)
    requires KeepsTieOrder(a, b, opt)
    ensures a == b
    decreases |a|
  {
    assert |a| == |multiset(a)| == |multiset(b)| == |b|;
    if a != [] {
      assert a[0] in multiset(b) && b[0] in multiset(a);
      SortedHeadFirst(b, a[0], opt, dir);
      SortedHeadFirst(a, b[0], opt, dir);
      PrecedesBothWaysSameKey(a[0], b[0], opt, dir);
      var k := Key(a[0], opt);
      assert WithKey(a, opt, k) == WithKey(b, opt, k);
      assert WithKey(a, opt, k)[0] == a[0];
      assert WithKey(b, opt, k)[0] == b[0];
      TailsArePermutations(a, b);
      TailsKeepTieOrder(a, b, opt);
      SortedTail(a, opt, dir);
      SortedTail(b, opt, dir);
      StableSortIsUnique(a[1..], b[1..], opt, dir);
    }
  }

  /** The three properties together characterise `SortTasks` among all orderings. */
  lemma SortTasksCharacterised(s: seq<Task>, r: seq<Task>, opt: SortOption, dir: SortDirection)
    ensures r == SortTasks(s, opt, dir) <==>
      multiset(r) == multiset(s) && IsSorted(r, opt, dir) && KeepsTieOrder(r, s, opt)
  {
    var sorted := SortTasks(s, opt, dir);
    SortTasksIsPermutation(s, opt, dir);
    SortTasksIsSorted(s, opt, dir);
    SortTasksIsStable(s, opt, dir);
    if multiset(r) == multiset(s) && IsSorted(r, opt, dir) && KeepsTieOrder(r, s, opt) {
      StableSortIsUnique(r, sorted, opt, dir);
    }
  }

  /** The rank of a task under one of the three numeric sort options. */
  function RankOf(t: Task, opt: SortOption): int
    requires opt != Title
  {
    Key(t, opt).n
  }

  /** Ascending output is non-decreasing in rank, descending non-increasing. */
  lemma SortedByRank(s: seq<Task>, opt: SortOption, dir: SortDirection, i: int, j: int)
    requires opt != Title
    requires 0 <= i < j < |s|
    ensures dir == Asc ==> RankOf(SortTasks(s, opt, dir)[i], opt) <= RankOf(SortTasks(s, opt, dir)[j], opt)
    ensures dir == Desc ==> RankOf(SortTasks(s, opt, dir)[i], opt) >= RankOf(SortTasks(s, opt, dir)[j], opt)
  {
    SortTasksIsSorted(s, opt, dir);
  }

  /** By title, ascending output is in comparator order and descending in reverse. */
  lemma SortedByTitle(s: seq<Task>, dir: SortDirection, i: int, j: int)
    requires 0 <= i < j < |s|
    ensures dir == Asc ==> LocaleCompare(SortTasks(s, Title, dir)[i].title, SortTasks(s, Title, dir)[j].title) <= 0
    ensures dir == Desc ==> LocaleCompare(SortTasks(s, Title, dir)[i].title, SortTasks(s, Title, dir)[j].title) >= 0
  {
    SortTasksIsSorted(s, Title, dir);
  }

  /** Sorted by due date ascending, undated tasks come after every dated task;
      descending, before every dated task. */
  lemma UndatedPlacement(s: seq<Task>, dir: SortDirection, i: int, j: int)
    requires 0 <= i < j < |s|
    ensures dir == Asc && SortTasks(s, DueDate, dir)[i].dueDate.None? ==> SortTasks(s, DueDate, dir)[j].dueDate.None?
    ensures dir == Desc && SortTasks(s, DueDate, dir)[j].dueDate.None? ==> SortTasks(s, DueDate, dir)[i].dueDate.None?
  {
    SortTasksIsSorted(s, DueDate, dir);
  }

  /** The priority rank: high 3, medium 2, low 1, anything else 0, ignoring case. */
  lemma PriorityRankValues(p: Option<string>)
    ensures p.Some? && ToLower(p.value) == "high" ==> PriorityRank(p) == 3
    ensures p.Some? && ToLower(p.value) == "medium" ==> PriorityRank(p) == 2
    ensures p.Some? && ToLower(p.value) == "low" ==> PriorityRank(p) == 1
    ensures (p.None? || ToLower(p.value) !in {"high", "medium", "low"}) ==> PriorityRank(p) == 0
    ensures PriorityRank(Some("HIGH")) == 3 && PriorityRank(Some("Medium")) == 2
  {
    assert ToLower("HIGH") == "high";
    assert ToLower("Medium") == "medium";
  }

  /** The status rank: completed 1, pending, absent or unrecognised 0, ignoring case. */
  lemma StatusRankValues(s: Option<string>)
    ensures StatusRank(s) == 1 <==> s.Some? && ToLower(s.value) == "completed"
    ensures StatusRank(s) == 0 <==> !(s.Some? && ToLower(s.value) == "completed")
    ensures StatusRank(Some("Completed")) == 1
  {
    assert ToLower("Completed") == "completed";
  }
}
