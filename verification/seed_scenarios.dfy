/**
 * Concrete tables for the query: the six rows the database callback seeds an
 * empty database with (TaskDatabase.kt), and the two-row table of the
 * search example. The clock readings are placeholders that increase in
 * insertion order.
 */
module TaskSeed {
  import opened Wrappers
  import opened TaskModel
  import opened Preferences
  import opened SqlLike
  import opened TaskDb
  import opened TaskList

  const GET_FRUITS := Task(1, "Get fruits", true, false, 1)
  const GET_EGGS := Task(2, "Get eggs", false, false, 2)
  const DO_HOMEWORK := Task(3, "Do homework", false, false, 3)
  const READ_BOOKS := Task(4, "Read books", false, false, 4)
  const DO_LAUNDRY := Task(5, "Do laundry", false, false, 5)
  const PRACTICE_ANDROID := Task(6, "Practice Android", true, true, 6)

  function SeedRows(): Table {
    map[1 := GET_FRUITS, 2 := GET_EGGS, 3 := DO_HOMEWORK, 4 := READ_BOOKS, 5 := DO_LAUNDRY, 6 := PRACTICE_ANDROID]
  }

  /** The seeding callback: six inserts into an empty table, each without an id. */
  method SeedDatabase() returns (dao: TaskDao)
    ensures dao.Valid() && dao.rows == SeedRows() && dao.nextId == 7
  {
    dao := new TaskDao();
    dao.Insert(NewTask("Get fruits", true, 1));
    dao.Insert(NewTask("Get eggs", false, 2));
    dao.Insert(NewTask("Do homework", false, 3));
    dao.Insert(NewTask("Read books", false, 4));
    dao.Insert(NewTask("Do laundry", false, 5));
    dao.Insert(Task(UNSET_ID, "Practice Android", true, true, 6));
  }

  /** Hiding completed tasks with empty search text drops exactly "Practice Android". */
  lemma HideCompletedOnSeed(order: SortOrder, r: seq<Task>)
    requires IsQueryResult(SeedRows(), "", order, true, r)
    ensures PRACTICE_ANDROID !in r
    ensures forall k :: k in SeedRows() && k != 6 ==> SeedRows()[k] in r
  {
    EmptySearchKeepsPassingRows(SeedRows(), order, true, r);
  }

  /** Every row is admitted by an empty search without hiding. */
  lemma SeedAllSelected(t: Task)
    ensures Selected(SeedRows(), "", false, t) <==> t.id in SeedRows() && SeedRows()[t.id] == t
  {
    EmptySearchMatchesAll(t.name);
  }

  /** A selected row of the seed table is the row under its id, whose creation time equals its id. */
  lemma SeedSelectedRows(q: string, hideCompleted: bool, t: Task)
    requires Selected(SeedRows(), q, hideCompleted, t)
    ensures t.created == t.id
  {
  }

  /** No two seed rows share a creation time, so the by-date order has no ties. */
  lemma SeedNoTiesByDate(q: string, hideCompleted: bool)
    ensures NoTies(SeedRows(), q, SORT_BY_DATE, hideCompleted)
  {
    forall x, y | Selected(SeedRows(), q, hideCompleted, x) && Selected(SeedRows(), q, hideCompleted, y)
                  && InOrder(SORT_BY_DATE, x, y) && InOrder(SORT_BY_DATE, y, x)
      ensures x == y
    {
      SeedSelectedRows(q, hideCompleted, x);
      SeedSelectedRows(q, hideCompleted, y);
    }
  }

  /** The seed table in by-date order. */
  const SEED_BY_DATE := [GET_FRUITS, PRACTICE_ANDROID, GET_EGGS, DO_HOMEWORK, READ_BOOKS, DO_LAUNDRY]

  /** The by-date list holds each seed row once. */
  lemma SeedByDateCounts(t: Task)
    ensures multiset(SEED_BY_DATE)[t] == if Selected(SeedRows(), "", false, t) then 1 else 0
  {
    SeedAllSelected(t);
  }

  lemma SeedByDateSorted()
    ensures SortedBy(SORT_BY_DATE, SEED_BY_DATE)
  {
  }

  /** By date, with nothing hidden: important first, then creation order. */
  lemma SeedByDate(r: seq<Task>)
    requires IsQueryResult(SeedRows(), "", SORT_BY_DATE, false, r)
    ensures r == SEED_BY_DATE
  {
    forall t ensures multiset(SEED_BY_DATE)[t] == if Selected(SeedRows(), "", false, t) then 1 else 0 {
      SeedByDateCounts(t);
    }
    SeedByDateSorted();
    SeedNoTiesByDate("", false);
    QueryResultsAgree(SeedRows(), "", SORT_BY_DATE, false, r, SEED_BY_DATE);
  }

  function SearchExampleRows(): Table {
    map[1 := GET_FRUITS, 2 := GET_EGGS]
  }

  /** Both names start with "get", ignoring case. */
  lemma SearchExampleMatches(name: string)
    requires name == GET_FRUITS.name || name == GET_EGGS.name
    ensures Like(SearchPattern("get"), name)
  {
    assert StartsWithIgnoringCase(name, "get");
    PrefixIsFound("get", name);
  }

  /** Both rows of the search example match "get". */
  lemma SearchExampleSelected(t: Task)
    ensures Selected(SearchExampleRows(), "get", false, t) <==> t == GET_FRUITS || t == GET_EGGS
  {
    if t == GET_FRUITS || t == GET_EGGS {
      SearchExampleMatches(t.name);
    }
  }

  /** Searching "get" by name finds both rows, the important one first. */
  lemma SearchExample(r: seq<Task>)
    requires IsQueryResult(SearchExampleRows(), "get", SORT_BY_NAME, false, r)
    ensures r == [GET_FRUITS, GET_EGGS]
  {
    var expected := [GET_FRUITS, GET_EGGS];
    assert IsQueryResult(SearchExampleRows(), "get", SORT_BY_NAME, false, expected) by {
      forall t ensures multiset(expected)[t] == if Selected(SearchExampleRows(), "get", false, t) then 1 else 0 {
        SearchExampleSelected(t);
      }
    }
    assert NoTies(SearchExampleRows(), "get", SORT_BY_NAME, false) by {
      forall x, y | Selected(SearchExampleRows(), "get", false, x) && Selected(SearchExampleRows(), "get", false, y)
                    && InOrder(SORT_BY_NAME, x, y) && InOrder(SORT_BY_NAME, y, x)
        ensures x == y
      {
        SearchExampleSelected(x);
        SearchExampleSelected(y);
      }
    }
    QueryResultsAgree(SearchExampleRows(), "get", SORT_BY_NAME, false, r, expected);
  }

  /**
   * On the list screen over the search-example table and an empty preferences
   * store: ticking "Get eggs" and then switching on "hide completed" leaves it
   * out of the list the screen shows.
   */
  method CheckThenHide(dao: TaskDao, preferencesManager: PreferencesManager) returns (r: Result<seq<Task>, PreferencesError>)
    requires dao.Valid() && dao.rows == SearchExampleRows()
    requires preferencesManager.Valid() && preferencesManager.data == map[]
    modifies dao, preferencesManager
    ensures dao.rows == map[1 := GET_FRUITS, 2 := GET_EGGS.(isCompleted := true)]
    ensures r.Success? && GET_FRUITS in r.value
    ensures forall t :: t in r.value ==> t.id != GET_EGGS.id
  {
    var vm := new TasksViewModel(dao, preferencesManager, None);
    vm.OnTaskCheckboxClick(GET_EGGS, true);
    assert dao.rows == map[1 := GET_FRUITS, 2 := GET_EGGS.(isCompleted := true)];
    assert preferencesManager.Read(None) == Success(DEFAULT_PREFERENCES);
    vm.OnHideCompletedClicked(true);
    r := vm.Tasks(None);
    EmptySearchKeepsPassingRows(dao.rows, SORT_BY_DATE, true, r.value);
    assert dao.rows[1] == GET_FRUITS;
  }

  /** The bulk delete on one completed and one open task keeps the open one, and a second run changes nothing. */
  lemma DeleteCompletedExample()
    ensures WithoutCompleted(map[1 := GET_FRUITS, 6 := PRACTICE_ANDROID]) == map[1 := GET_FRUITS]
    ensures WithoutCompleted(map[1 := GET_FRUITS]) == map[1 := GET_FRUITS]
  {
  }
}
