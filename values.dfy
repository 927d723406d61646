/** The values the table's query state is made of. */
module Values {
  import opened Wrappers
  import opened JsObject

  /**
    One element of a column's filter list. A checkbox, radio or tag value is a string,
    number or boolean; a typed filter is a string; a date-range picker stores its two
    date strings as a two-element array.
  */
  datatype FilterValue =
    | Str(s: string)
    | Num(text: string)                    // a number, held as its `String(n)` text
    | Bool(b: bool)
    | Range(start: string, end: string)    // `[start, end]` as the range picker gives them

  /** Column key to its list of values (the `FilterProps` object), in insertion order. */
  type Filters = Dict<seq<FilterValue>>

  /** No column maps to an empty list: an emptied column is deleted instead. */
  ghost predicate NoEmptyLists(f: Filters) {
    forall k :: Get(f, k).Some? ==> Get(f, k).value != []
  }

  /** The shape every filter or bind map of the table keeps. */
  ghost predicate WellFormed(f: Filters) {
    DistinctKeys(f) && NoEmptyLists(f)
  }

  datatype Direction = ASC | DESC

  /** `Direction[name]`: the enum member of that name, `undefined` for any other string
      that is not an inherited `Object.prototype` property. */
  function DirectionNamed(name: string): (d: Option<Direction>)
    ensures d == Some(ASC) <==> name == "ASC"
    ensures d == Some(DESC) <==> name == "DESC"
  {
    if name == "ASC" then Some(ASC) else if name == "DESC" then Some(DESC) else None
  }

  /** `{sort, direction}` of the backend's ordering argument. */
  datatype Ordering = Ordering(sort: string, direction: Option<Direction>)

  /** The variables handed to the fetch collaborator; `None` is an absent key. */
  datatype Variables = Variables(
    query: Option<string>,
    orderBy: Option<seq<Ordering>>,
    first: Option<int>,
    last: Option<int>,
    after: Option<string>,
    before: Option<string>)

  /** The backend's page descriptor for cursor paging. */
  datatype PageInfo = PageInfo(
    hasNextPage: bool,
    hasPreviousPage: bool,
    startCursor: Option<string>,
    endCursor: Option<string>)

  /** A JavaScript truthiness test on an optional string: present and not empty. */
  predicate Truthy(s: Option<string>) {
    s.Some? && s.value != ""
  }
}
