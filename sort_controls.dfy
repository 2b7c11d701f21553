/** The sort controls of the assignment list: the option labels, the two handlers that
    report a new (sort key, order) pair, and the exported sort they drive, generic in the
    item type through its due, title and creation projections. The sort key arrives as the
    string the select control holds. */
module SortControls {
  import opened Seqs
  import opened Strings
  import opened FrontOrder

  /** `SortOption`. */
  datatype SortOption = DueDateOption | TitleOption | CreatedAtOption {
    function Name(): string {
      match this
      case DueDateOption => "due_date"
      case TitleOption => "title"
      case CreatedAtOption => "created_at"
    }
  }

  /** The option a select value names; an unknown value is treated as the due date, as the
      `default` branches of the label and of the sort do. */
  function OptionOf(value: string): (o: SortOption)
    ensures value == TitleOption.Name() <==> o == TitleOption
    ensures value == CreatedAtOption.Name() <==> o == CreatedAtOption
    ensures o.Name() == value || o == DueDateOption
  {
    if value == "title" then TitleOption
    else if value == "created_at" then CreatedAtOption
    else DueDateOption
  }

  /** `getSortLabel`. */
  function GetSortLabel(value: string): (r: string)
    ensures r == "Title" <==> value == TitleOption.Name()
    ensures r == "Created" <==> value == CreatedAtOption.Name()
    ensures r == "Due Date" <==> value != TitleOption.Name() && value != CreatedAtOption.Name()
  {
    if value == "due_date" then "Due Date"
    else if value == "title" then "Title"
    else if value == "created_at" then "Created"
    else "Due Date"
  }

  /** The label is a function of the option the value names. */
  lemma LabelOfOption(value: string)
    ensures GetSortLabel(value) == GetSortLabel(OptionOf(value).Name())
  {
  }

  /** The `(sortBy, sortOrder)` pair passed to `onSortChange`. */
  datatype SortState = SortState(sortBy: string, order: SortOrder)

  /** `handleSortByChange`: a new key, the order kept. */
  function HandleSortByChange(current: SortState, newSortBy: string): (r: SortState)
    ensures r.sortBy == newSortBy && r.order == current.order
  {
    SortState(newSortBy, current.order)
  }

  /** `handleOrderToggle`: the other order, the key kept. */
  function HandleOrderToggle(current: SortState): (r: SortState)
    ensures r.sortBy == current.sortBy && r.order != current.order
  {
    SortState(current.sortBy, current.order.Flipped())
  }

  /** Toggling twice restores the state, and a toggle commutes with a key change. */
  lemma OrderToggleTwice(current: SortState, newSortBy: string)
    ensures HandleOrderToggle(HandleOrderToggle(current)) == current
    ensures HandleOrderToggle(HandleSortByChange(current, newSortBy))
            == HandleSortByChange(HandleOrderToggle(current), newSortBy)
  {
    FlippedTwice(current.order);
  }

  /** The fields the exported sort reads, as projections of the item type; the
      timestamps are `new Date(...).getTime()` of the item's strings. */
  datatype Projections<-T> = Projections(dueDate: T -> int, title: T -> string, createdAt: T -> int)

  /** The comparison the exported sort applies for a select value. */
  function Comparison<T>(p: Projections<T>, sortBy: string): (T, T) -> int {
    match OptionOf(sortBy)
    case DueDateOption => KeyDifference(p.dueDate)
    case TitleOption => KeyLocaleCompare(p.title)
    case CreatedAtOption => KeyDifference(p.createdAt)
  }

  /** The exported `sortAssignments`: a sorted copy. */
  function SortAssignments<T>(items: seq<T>, p: Projections<T>, sortBy: string, order: SortOrder): seq<T> {
    SortCopy(items, Comparison(p, sortBy), order)
  }

  /** The sorted copy is a permutation of the items ordered by the selected key, and by the
      due date for any unknown key; descending reverses the order. */
  lemma SortAssignmentsSpec<T(!new)>(items: seq<T>, p: Projections<T>, sortBy: string, order: SortOrder)
    ensures var r := SortAssignments(items, p, sortBy, order);
            |r| == |items| && multiset(r) == multiset(items)
            && (sortBy == TitleOption.Name() ==> forall i, j :: 0 <= i < j < |r| ==> StrKeyOrdered(p.title, order, r[i], r[j]))
            && (sortBy == CreatedAtOption.Name() ==> forall i, j :: 0 <= i < j < |r| ==> IntKeyOrdered(p.createdAt, order, r[i], r[j]))
            && (sortBy != TitleOption.Name() && sortBy != CreatedAtOption.Name() ==>
                  forall i, j :: 0 <= i < j < |r| ==> IntKeyOrdered(p.dueDate, order, r[i], r[j]))
  {
    match OptionOf(sortBy)
    case DueDateOption => SortByIntKey(items, p.dueDate, order);
    case TitleOption => SortByStrKey(items, p.title, order);
    case CreatedAtOption => SortByIntKey(items, p.createdAt, order);
  }
}
