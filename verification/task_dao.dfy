/**
 * TaskDao.kt: the task table, its two filtered and ordered SELECTs and its writes.
 *
 * The table is a map from primary key to row. A SELECT fixes which rows come
 * back and a partial order on them, not one list: ties on the ORDER BY keys
 * come back in an unspecified order. So the queries are specified by
 * `IsQueryResult`, and `SelectTasks` computes one list that satisfies it.
 */
module TaskDb {
  import opened TaskModel
  import opened SqlLike
  import opened Preferences

  type Table = map<int, Task>

  /** Every row is stored under its own primary key. */
  predicate WellFormed(rows: Table) {
    forall k :: k in rows ==> rows[k].id == k
  }

  /** `(isCompleted != :hideCompleted or isCompleted = 0)` */
  predicate PassesCompletionFilter(t: Task, hideCompleted: bool) {
    t.isCompleted != hideCompleted || !t.isCompleted
  }

  /** The filter keeps a task exactly when hiding is off or the task is open. */
  lemma CompletionFilterMeaning(t: Task, hideCompleted: bool)
    ensures PassesCompletionFilter(t, hideCompleted) <==> !hideCompleted || !t.isCompleted
  {
  }

  /** The whole WHERE clause of both queries. */
  predicate Admits(t: Task, searchQuery: string, hideCompleted: bool) {
    PassesCompletionFilter(t, hideCompleted) && Like(SearchPattern(searchQuery), t.name)
  }

  /** `t` is a row of the table that the WHERE clause keeps. */
  predicate Selected(rows: Table, searchQuery: string, hideCompleted: bool, t: Task) {
    t.id in rows && rows[t.id] == t && Admits(t, searchQuery, hideCompleted)
  }

  /** `a <= b` under SQLite's BINARY collation: code point by code point, a prefix first. */
  predicate NameLe(a: string, b: string)
    decreases |a|
  {
    a == [] || (b != [] && (a[0] < b[0] || (a[0] == b[0] && NameLe(a[1..], b[1..]))))
  }

  lemma {:induction false} NameLeReflexive(a: string)
    ensures NameLe(a, a)
  {
    if a != [] {
      NameLeReflexive(a[1..]);
    }
  }

  lemma {:induction false} NameLeTotal(a: string, b: string)
    ensures NameLe(a, b) || NameLe(b, a)
  {
    if a != [] && b != [] && a[0] == b[0] {
      NameLeTotal(a[1..], b[1..]);
    }
  }

  lemma {:induction false} NameLeTransitive(a: string, b: string, c: string)
    requires NameLe(a, b) && NameLe(b, c)
    ensures NameLe(a, c)
  {
    if a != [] && b != [] && c != [] && a[0] == b[0] == c[0] {
      NameLeTransitive(a[1..], b[1..], c[1..]);
    }
  }

  lemma {:induction false} NameLeAntisymmetric(a: string, b: string)
    requires NameLe(a, b) && NameLe(b, a)
    ensures a == b
  {
    if a != [] {
      NameLeAntisymmetric(a[1..], b[1..]);
    }
  }

  /** `a` may come before `b` under `ORDER BY important DESC, name` or `ORDER BY important DESC, created`. */
  predicate InOrder(order: SortOrder, a: Task, b: Task) {
    if a.important != b.important then a.important
    else match order
      case SORT_BY_NAME => NameLe(a.name, b.name)
      case SORT_BY_DATE => a.created <= b.created
  }

  lemma InOrderTotal(order: SortOrder, a: Task, b: Task)
    ensures InOrder(order, a, b) || InOrder(order, b, a)
  {
    NameLeTotal(a.name, b.name);
  }

  lemma InOrderTransitive(order: SortOrder, a: Task, b: Task, c: Task)
    requires InOrder(order, a, b) && InOrder(order, b, c)
    ensures InOrder(order, a, c)
  {
    if a.important == b.important == c.important && order == SORT_BY_NAME {
      NameLeTransitive(a.name, b.name, c.name);
    }
  }

  predicate SortedBy(order: SortOrder, r: seq<Task>) {
    forall i, j :: 0 <= i < j < |r| ==> InOrder(order, r[i], r[j])
  }

  /**
   * `r` is a list the SELECT may return: every row the WHERE clause keeps,
   * exactly once, nothing else, in ORDER BY order.
   */
  ghost predicate IsQueryResult(rows: Table, searchQuery: string, order: SortOrder, hideCompleted: bool, r: seq<Task>) {
    && (forall t :: multiset(r)[t] == if Selected(rows, searchQuery, hideCompleted, t) then 1 else 0)
    && SortedBy(order, r)
  }

  /** An element that may precede every element of a sorted list keeps it sorted when put in front. */
  lemma PrependSorted(order: SortOrder, x: Task, s: seq<Task>)
    requires SortedBy(order, s)
    requires forall y :: y in s ==> InOrder(order, x, y)
    ensures SortedBy(order, [x] + s)
  {
    var xs := [x] + s;
    forall i, j | 0 <= i < j < |xs| ensures InOrder(order, xs[i], xs[j]) {
      if i == 0 {
        assert xs[j] == s[j - 1];
      } else {
        assert xs[i] == s[i - 1] && xs[j] == s[j - 1];
      }
    }
  }

  /** What may precede the head of a sorted list may precede all of it. */
  lemma BeforeHeadBeforeAll(order: SortOrder, x: Task, s: seq<Task>)
    requires SortedBy(order, s) && s != [] && InOrder(order, x, s[0])
    ensures forall y :: y in s ==> InOrder(order, x, y)
  {
    forall y | y in s ensures InOrder(order, x, y) {
      var j :| 0 <= j < |s| && s[j] == y;
      if j > 0 {
        InOrderTransitive(order, x, s[0], y);
      }
    }
  }

  /** The head of a sorted list may precede everything its tail holds, and any `t` it may precede. */
  lemma HeadBeforeRest(order: SortOrder, r: seq<Task>, t: Task, rest: seq<Task>)
    requires SortedBy(order, r) && r != [] && InOrder(order, r[0], t)
    requires multiset(rest) == multiset(r[1..]) + multiset{t}
    ensures forall x :: x in rest ==> InOrder(order, r[0], x)
  {
    forall x | x in rest ensures InOrder(order, r[0], x) {
      assert x in multiset(rest);
      if x != t {
        assert x in multiset(r[1..]);
        var j :| 0 <= j < |r[1..]| && r[1..][j] == x;
        assert r[j + 1] == x;
      }
    }
  }

  /** Inserts `t` into the sorted list `r` before the first element it may precede. */
  function InsertSorted(order: SortOrder, r: seq<Task>, t: Task): (res: seq<Task>)
    requires SortedBy(order, r)
    ensures SortedBy(order, res)
    ensures multiset(res) == multiset(r) + multiset{t}
  {
    if r == [] then [t]
    else if InOrder(order, t, r[0]) then
      BeforeHeadBeforeAll(order, t, r);
      PrependSorted(order, t, r);
      [t] + r
    else
      assert r == [r[0]] + r[1..];
      var rest := InsertSorted(order, r[1..], t);
      InOrderTotal(order, t, r[0]);
      HeadBeforeRest(order, r, t, rest);
      PrependSorted(order, r[0], rest);
      [r[0]] + rest
  }

  /** A non-empty key set has a key to pick. */
  lemma ChooseKey(s: set<int>)
    requires s != {}
    ensures exists k :: k in s
  {
    if forall k :: k !in s {
      assert false;
    }
  }

  /** One evaluation of either SELECT: scan the table, keep what the WHERE clause admits, order it. */
  method SelectTasks(rows: Table, searchQuery: string, order: SortOrder, hideCompleted: bool) returns (r: seq<Task>)
    requires WellFormed(rows)
    ensures IsQueryResult(rows, searchQuery, order, hideCompleted, r)
  {
    r := [];
    var pending := rows.Keys;
    while pending != {}
      invariant pending <= rows.Keys
      invariant SortedBy(order, r)
      invariant forall t :: multiset(r)[t] ==
                            if Selected(rows, searchQuery, hideCompleted, t) && t.id !in pending then 1 else 0
      decreases pending
    {
      ChooseKey(pending);
      var k :| k in pending;
      var t := rows[k];
      if Admits(t, searchQuery, hideCompleted) {
        r := InsertSorted(order, r, t);
      }
      pending := pending - {k};
    }
  }

  /** `getTasksSortedByName` */
  method GetTasksSortedByName(rows: Table, searchQuery: string, hideCompleted: bool) returns (r: seq<Task>)
    requires WellFormed(rows)
    ensures IsQueryResult(rows, searchQuery, SORT_BY_NAME, hideCompleted, r)
  {
    r := SelectTasks(rows, searchQuery, SORT_BY_NAME, hideCompleted);
  }

  /** `getTasksSortedByDate` */
  method GetTasksSortedByDate(rows: Table, searchQuery: string, hideCompleted: bool) returns (r: seq<Task>)
    requires WellFormed(rows)
    ensures IsQueryResult(rows, searchQuery, SORT_BY_DATE, hideCompleted, r)
  {
    r := SelectTasks(rows, searchQuery, SORT_BY_DATE, hideCompleted);
  }

  /** `getTasks(query, sortOrder, hideCompleted)`: dispatch on the sort order. */
  method GetTasks(rows: Table, searchQuery: string, order: SortOrder, hideCompleted: bool) returns (r: seq<Task>)
    requires WellFormed(rows)
    ensures IsQueryResult(rows, searchQuery, order, hideCompleted, r)
  {
    match order
    case SORT_BY_DATE =>
      r := GetTasksSortedByDate(rows, searchQuery, hideCompleted);
    case SORT_BY_NAME =>
      r := GetTasksSortedByName(rows, searchQuery, hideCompleted);
  }

  /** A query result holds each selected row once and nothing else. */
  lemma QueryResultMembers(rows: Table, searchQuery: string, order: SortOrder, hideCompleted: bool, r: seq<Task>)
    requires IsQueryResult(rows, searchQuery, order, hideCompleted, r)
    ensures forall t :: t in r <==> Selected(rows, searchQuery, hideCompleted, t)
    ensures forall i, j :: 0 <= i < j < |r| ==> r[i] != r[j]
  {
    forall t ensures t in r <==> Selected(rows, searchQuery, hideCompleted, t) {
      assert t in r <==> t in multiset(r);
    }
    forall i, j | 0 <= i < j < |r| ensures r[i] != r[j] {
      RepeatCountsTwice(r, i, j);
      assert r[i] in r;
    }
  }

  /** An element found at two positions occurs at least twice. */
  lemma RepeatCountsTwice(r: seq<Task>, i: int, j: int)
    requires 0 <= i < j < |r|
    ensures r[i] == r[j] ==> multiset(r)[r[i]] >= 2
  {
    assert r == r[..i] + [r[i]] + r[i + 1..j] + [r[j]] + r[j + 1..];
  }

  /** With `hideCompleted` no completed task comes back; without it the completion filter keeps every row. */
  lemma QueryHidesCompleted(rows: Table, searchQuery: string, order: SortOrder, hideCompleted: bool, r: seq<Task>)
    requires IsQueryResult(rows, searchQuery, order, hideCompleted, r)
    ensures hideCompleted ==> forall t :: t in r ==> !t.isCompleted
    ensures !hideCompleted ==> forall k :: k in rows && rows[k].id == k && Like(SearchPattern(searchQuery), rows[k].name) ==> rows[k] in r
  {
    QueryResultMembers(rows, searchQuery, order, hideCompleted, r);
  }

  /**
   * For search text without wildcards, exactly the rows whose name contains it
   * (ignoring ASCII case) and that pass the completion filter come back.
   */
  lemma QueryMatchesSearch(rows: Table, searchQuery: string, order: SortOrder, hideCompleted: bool, r: seq<Task>)
    requires IsQueryResult(rows, searchQuery, order, hideCompleted, r)
    requires HasNoWildcards(searchQuery)
    ensures forall t :: t in r <==>
      t.id in rows && rows[t.id] == t && PassesCompletionFilter(t, hideCompleted) && ContainsIgnoringCase(t.name, searchQuery)
  {
    QueryResultMembers(rows, searchQuery, order, hideCompleted, r);
    forall t: Task ensures Like(SearchPattern(searchQuery), t.name) <==> ContainsIgnoringCase(t.name, searchQuery) {
      SearchPatternMeansContains(searchQuery, t.name);
    }
  }

  /** With empty search text, a row comes back exactly when the completion filter keeps it. */
  lemma EmptySearchKeepsPassingRows(rows: Table, order: SortOrder, hideCompleted: bool, r: seq<Task>)
    requires WellFormed(rows)
    requires IsQueryResult(rows, "", order, hideCompleted, r)
    ensures forall k :: k in rows ==> (rows[k] in r <==> PassesCompletionFilter(rows[k], hideCompleted))
    ensures forall t :: t in r ==> t.id in rows && rows[t.id] == t
  {
    QueryResultMembers(rows, "", order, hideCompleted, r);
    forall k | k in rows ensures Like(SearchPattern(""), rows[k].name) {
      EmptySearchMatchesAll(rows[k].name);
    }
  }

  /** Every important task precedes every other; within a tier names or creation times do not decrease. */
  lemma QueryOrdering(rows: Table, searchQuery: string, order: SortOrder, hideCompleted: bool, r: seq<Task>, i: int, j: int)
    requires IsQueryResult(rows, searchQuery, order, hideCompleted, r)
    requires 0 <= i < j < |r|
    ensures r[j].important ==> r[i].important
    ensures r[i].important == r[j].important && order == SORT_BY_NAME ==> NameLe(r[i].name, r[j].name)
    ensures r[i].important == r[j].important && order == SORT_BY_DATE ==> r[i].created <= r[j].created
  {
  }

  /** No two distinct elements of `a` are equal on the ORDER BY keys. */
  ghost predicate TieFree(order: SortOrder, a: seq<Task>) {
    forall x, y :: x in a && y in a && InOrder(order, x, y) && InOrder(order, y, x) ==> x == y
  }

  /** Sorted permutations without ties start with the same element. */
  lemma HeadsAgree(order: SortOrder, a: seq<Task>, b: seq<Task>)
    requires SortedBy(order, a) && SortedBy(order, b) && TieFree(order, a)
    requires multiset(a) == multiset(b) && a != []
    ensures b != [] && a[0] == b[0]
  {
    assert a[0] in multiset(b) && b[0] in multiset(a);
    var i :| 0 <= i < |b| && b[i] == a[0];
    var j :| 0 <= j < |a| && a[j] == b[0];
    NameLeReflexive(a[0].name);
    assert InOrder(order, b[0], a[0]) by {
      if i > 0 { assert InOrder(order, b[0], b[i]); }
    }
    assert InOrder(order, a[0], b[0]) by {
      if j > 0 { assert InOrder(order, a[0], a[j]); }
    }
  }

  /** Removing the same first element from equal multisets leaves equal multisets. */
  lemma TailsAgree(a: seq<Task>, b: seq<Task>)
    requires a != [] && b != [] && a[0] == b[0]
    requires multiset(a) == multiset(b)
    ensures multiset(a[1..]) == multiset(b[1..])
  {
    assert a == [a[0]] + a[1..] && b == [b[0]] + b[1..];
    assert multiset(a) == multiset{a[0]} + multiset(a[1..]);
    assert multiset(b) == multiset{b[0]} + multiset(b[1..]);
    forall y ensures multiset(a[1..])[y] == multiset(b[1..])[y] {
      assert multiset(a)[y] == multiset{a[0]}[y] + multiset(a[1..])[y];
      assert multiset(b)[y] == multiset{a[0]}[y] + multiset(b[1..])[y];
    }
  }

  /** Two sorted lists with the same elements are equal when no two distinct elements tie. */
  lemma {:induction false} SortedPermutationsEqual(order: SortOrder, a: seq<Task>, b: seq<Task>)
    requires SortedBy(order, a) && SortedBy(order, b)
    requires multiset(a) == multiset(b)
    requires TieFree(order, a)
    ensures a == b
  {
    if a != [] {
      HeadsAgree(order, a, b);
      TailsAgree(a, b);
      assert forall x :: x in a[1..] ==> x in a;
      SortedPermutationsEqual(order, a[1..], b[1..]);
      assert a == [a[0]] + a[1..] && b == [b[0]] + b[1..];
    } else {
      assert |b| == |multiset(b)| == 0;
    }
  }

  /** No two distinct selected rows are equal on the ORDER BY keys. */
  ghost predicate NoTies(rows: Table, searchQuery: string, order: SortOrder, hideCompleted: bool) {
    forall x, y ::
      (Selected(rows, searchQuery, hideCompleted, x) && Selected(rows, searchQuery, hideCompleted, y)
       && InOrder(order, x, y) && InOrder(order, y, x)) ==> x == y
  }

  /** Any two results of the same query are permutations of each other, and equal when no selected rows tie. */
  lemma QueryResultsAgree(rows: Table, searchQuery: string, order: SortOrder, hideCompleted: bool, r1: seq<Task>, r2: seq<Task>)
    requires IsQueryResult(rows, searchQuery, order, hideCompleted, r1)
    requires IsQueryResult(rows, searchQuery, order, hideCompleted, r2)
    ensures multiset(r1) == multiset(r2)
    ensures NoTies(rows, searchQuery, order, hideCompleted) ==> r1 == r2
  {
    assert forall t :: multiset(r1)[t] == multiset(r2)[t];
    QueryResultMembers(rows, searchQuery, order, hideCompleted, r1);
    if NoTies(rows, searchQuery, order, hideCompleted) {
      SortedPermutationsEqual(order, r1, r2);
    }
  }

  /** What `DELETE FROM task_table WHERE isCompleted=1` leaves. */
  function WithoutCompleted(rows: Table): (r: Table)
    ensures forall k :: k in r <==> k in rows && !rows[k].isCompleted
    ensures forall k :: k in r ==> r[k] == rows[k]
  {
    map k | k in rows && !rows[k].isCompleted :: rows[k]
  }

  /** Deleting the completed tasks a second time changes nothing. */
  lemma DeleteCompletedIdempotent(rows: Table)
    ensures WithoutCompleted(WithoutCompleted(rows)) == WithoutCompleted(rows)
  {
  }

  /** After the bulk delete, showing completed tasks shows what hiding them showed before. */
  lemma DeleteCompletedMatchesHiding(rows: Table, searchQuery: string, order: SortOrder, r: seq<Task>)
    ensures IsQueryResult(WithoutCompleted(rows), searchQuery, order, false, r)
        <==> IsQueryResult(rows, searchQuery, order, true, r)
  {
    assert forall t :: Selected(WithoutCompleted(rows), searchQuery, false, t) <==> Selected(rows, searchQuery, true, t);
  }

  /** Deleting a row and inserting the same snapshot again restores the table. */
  lemma DeleteThenInsertRestores(rows: Table, t: Task)
    requires t.id in rows && rows[t.id] == t
    ensures (rows - {t.id})[t.id := t] == rows
  {
  }

  /**
   * The DAO over `task_table`. `nextId` is the next key the database hands out
   * to a task inserted without one (an AUTOINCREMENT key is never reused).
   */
  class TaskDao {
    var rows: Table
    var nextId: int

    ghost predicate Valid()
      reads this
    {
      && WellFormed(rows)
      && UNSET_ID !in rows
      && 0 < nextId
      && forall k :: k in rows ==> k < nextId
    }

    constructor ()
      ensures Valid() && rows == map[] && nextId == 1
    {
      rows := map[];
      nextId := 1;
    }

    /**
     * `@Insert(onConflict = REPLACE)`: a task with an id replaces the row with that
     * id or adds one; a task without one is stored under a fresh key.
     */
    method Insert(t: Task)
      requires Valid()
      modifies this
      ensures Valid()
      ensures t.id != UNSET_ID ==> rows == old(rows)[t.id := t]
      ensures t.id != UNSET_ID ==> nextId == if t.id < old(nextId) then old(nextId) else t.id + 1
      ensures t.id == UNSET_ID ==> old(nextId) !in old(rows) && rows == old(rows)[old(nextId) := t.(id := old(nextId))]
      ensures t.id == UNSET_ID ==> nextId == old(nextId) + 1
    {
      if t.id == UNSET_ID {
        rows := rows[nextId := t.(id := nextId)];
        nextId := nextId + 1;
      } else {
        rows := rows[t.id := t];
        if nextId <= t.id {
          nextId := t.id + 1;
        }
      }
    }

    /** `@Update`: replaces the row whose id is `t.id`; without one, nothing changes. */
    method Update(t: Task)
      requires Valid()
      modifies this
      ensures Valid() && nextId == old(nextId)
      ensures rows == if t.id in old(rows) then old(rows)[t.id := t] else old(rows)
    {
      if t.id in rows {
        rows := rows[t.id := t];
      }
    }

    /** `@Delete`: removes the row whose id is `t.id`, whatever its other fields. */
    method Delete(t: Task)
      requires Valid()
      modifies this
      ensures Valid() && nextId == old(nextId)
      ensures rows == old(rows) - {t.id}
    {
      rows := rows - {t.id};
    }

    /** `deleteCompletedTasks` */
    method DeleteCompletedTasks()
      requires Valid()
      modifies this
      ensures Valid() && nextId == old(nextId)
      ensures rows == WithoutCompleted(old(rows))
    {
      rows := WithoutCompleted(rows);
    }
  }
}
