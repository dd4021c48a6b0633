/**
 * PreferencesManager.kt: the two filter preferences, kept in a key/value store
 * (the DataStore file) and decoded into `FilterPreferences` on every read.
 */
module Preferences {
  import opened Wrappers

  datatype SortOrder = SORT_BY_NAME | SORT_BY_DATE

  /** `SortOrder.name`, which `updateSortOrder` stores; `valueOf` takes it back. */
  function Name(s: SortOrder): (n: string)
    ensures ValueOf(n) == Some(s)
  {
    match s
    case SORT_BY_NAME => "SORT_BY_NAME"
    case SORT_BY_DATE => "SORT_BY_DATE"
  }

  /** `SortOrder.valueOf`; `None` is its IllegalArgumentException. Exact, case-sensitive match. */
  function ValueOf(name: string): (r: Option<SortOrder>)
    ensures r.Some? ==> name == "SORT_BY_NAME" || name == "SORT_BY_DATE"
    ensures r.None? ==> name != "SORT_BY_NAME" && name != "SORT_BY_DATE"
  {
    if name == "SORT_BY_NAME" then Some(SORT_BY_NAME)
    else if name == "SORT_BY_DATE" then Some(SORT_BY_DATE)
    else None
  }

  datatype FilterPreferences = FilterPreferences(sortOrder: SortOrder, hideCompleted: bool)

  /** What an empty store decodes to. */
  const DEFAULT_PREFERENCES := FilterPreferences(SORT_BY_DATE, false)

  /** A stored preference: the store is typed per key. */
  datatype PrefValue = StringValue(s: string) | BoolValue(b: bool)

  type PrefStore = map<string, PrefValue>

  const SORT_ORDER_KEY := "sort_order"
  const HIDE_COMPLETED_KEY := "hide_completed"

  /** Each key holds the type its `preferencesKey<T>` declares. */
  predicate WellTyped(store: PrefStore) {
    && (SORT_ORDER_KEY in store ==> store[SORT_ORDER_KEY].StringValue?)
    && (HIDE_COMPLETED_KEY in store ==> store[HIDE_COMPLETED_KEY].BoolValue?)
  }

  /** `preferences[HIDE_COMPLETED] ?: false` */
  function StoredHideCompleted(store: PrefStore): bool
    requires WellTyped(store)
  {
    if HIDE_COMPLETED_KEY in store then store[HIDE_COMPLETED_KEY].b else false
  }

  /** What a read of the store can raise. */
  datatype Exception = IOException | OtherException(kind: string)

  /** One read of the backing file: its contents, or the exception the read raised. */
  datatype DataRead = Loaded(store: PrefStore) | ReadFailed(cause: Exception)

  /** Why the preferences flow ends with an exception instead of a value. */
  datatype PreferencesError = Thrown(cause: Exception) | UnknownSortOrder(name: string)

  /**
   * The `.map` step: a missing key falls back to its default, and a stored
   * sort order that is not a constant's name makes `valueOf` throw.
   */
  function MapPreferences(store: PrefStore): (r: Result<FilterPreferences, PreferencesError>)
    requires WellTyped(store)
    ensures SORT_ORDER_KEY !in store ==> r.Success? && r.value.sortOrder == SORT_BY_DATE
    ensures SORT_ORDER_KEY in store && r.Success? ==> Name(r.value.sortOrder) == store[SORT_ORDER_KEY].s
    ensures r.Failure? <==> SORT_ORDER_KEY in store && ValueOf(store[SORT_ORDER_KEY].s).None?
    ensures r.Failure? ==> r.error == UnknownSortOrder(store[SORT_ORDER_KEY].s)
    ensures r.Success? ==> r.value.hideCompleted == (HIDE_COMPLETED_KEY in store && store[HIDE_COMPLETED_KEY].b)
  {
    var name := if SORT_ORDER_KEY in store then store[SORT_ORDER_KEY].s else Name(SORT_BY_DATE);
    match ValueOf(name)
    case None => Failure(UnknownSortOrder(name))
    case Some(order) => Success(FilterPreferences(order, StoredHideCompleted(store)))
  }

  /**
   * `preferencesFlow` for one read: an IOException is replaced by the empty
   * store, any other exception is rethrown.
   */
  function PreferencesFlow(read: DataRead): (r: Result<FilterPreferences, PreferencesError>)
    requires read.Loaded? ==> WellTyped(read.store)
    ensures read == ReadFailed(IOException) ==> r == Success(DEFAULT_PREFERENCES)
    ensures read.ReadFailed? && read.cause.OtherException? ==> r == Failure(Thrown(read.cause))
    ensures read.Loaded? && SORT_ORDER_KEY !in read.store ==> r.Success?
  {
    match read
    case ReadFailed(IOException) => MapPreferences(map[])
    case ReadFailed(e) => Failure(Thrown(e))
    case Loaded(store) => MapPreferences(store)
  }

  /** Writing a sort order and reading it back yields that order; the other preference is kept. */
  lemma ReadAfterUpdateSortOrder(store: PrefStore, s: SortOrder)
    requires WellTyped(store)
    ensures WellTyped(store[SORT_ORDER_KEY := StringValue(Name(s))])
    ensures MapPreferences(store[SORT_ORDER_KEY := StringValue(Name(s))])
         == Success(FilterPreferences(s, StoredHideCompleted(store)))
  {
  }

  /** Writing the hide flag and reading it back yields that flag; the sort order, or its failure, is kept. */
  lemma ReadAfterUpdateHideCompleted(store: PrefStore, b: bool)
    requires WellTyped(store)
    ensures WellTyped(store[HIDE_COMPLETED_KEY := BoolValue(b)])
    ensures MapPreferences(store[HIDE_COMPLETED_KEY := BoolValue(b)])
         == match MapPreferences(store)
            case Success(p) => Success(p.(hideCompleted := b))
            case Failure(e) => Failure(e)
  {
  }

  /** Decoding is partial: `valueOf` is case-sensitive, so a lower-case name is rejected. */
  lemma LowerCaseSortOrderIsRejected()
    ensures MapPreferences(map[SORT_ORDER_KEY := StringValue("sort_by_name")])
         == Failure(UnknownSortOrder("sort_by_name"))
  {
  }

  /** The `PreferencesManager` singleton over its DataStore file. */
  class PreferencesManager {
    var data: PrefStore

    ghost predicate Valid()
      reads this
    {
      WellTyped(data)
    }

    constructor (stored: PrefStore)
      requires WellTyped(stored)
      ensures Valid() && data == stored
    {
      data := stored;
    }

    /** The value `preferencesFlow` emits now; `fault` is the exception the file read raises, if any. */
    function Read(fault: Option<Exception>): (r: Result<FilterPreferences, PreferencesError>)
      reads this
      requires Valid()
    {
      match fault
      case Some(e) => PreferencesFlow(ReadFailed(e))
      case None => PreferencesFlow(Loaded(data))
    }

    /** `updateSortOrder`: writes the `sort_order` key and no other. */
    method UpdateSortOrder(s: SortOrder)
      requires Valid()
      modifies this
      ensures Valid()
      ensures data == old(data)[SORT_ORDER_KEY := StringValue(Name(s))]
      ensures Read(None) == Success(FilterPreferences(s, old(StoredHideCompleted(data))))
    {
      ReadAfterUpdateSortOrder(data, s);
      data := data[SORT_ORDER_KEY := StringValue(Name(s))];
    }

    /** `updateHideCompleted`: writes the `hide_completed` key and no other. */
    method UpdateHideCompleted(b: bool)
      requires Valid()
      modifies this
      ensures Valid()
      ensures data == old(data)[HIDE_COMPLETED_KEY := BoolValue(b)]
      ensures Read(None) == match old(Read(None))
                            case Success(p) => Success(p.(hideCompleted := b))
                            case Failure(e) => Failure(e)
    {
      ReadAfterUpdateHideCompleted(data, b);
      data := data[HIDE_COMPLETED_KEY := BoolValue(b)];
    }
  }
}
