/**
  The filter state the table component owns and the two tag handlers that edit it: a
  click on a tag in a row toggles that value in the column's filter list, and closing a
  tag in the list of active filters removes it. Each edit is handed to the serializer
  and written to the route's `filter` parameter. The route setter decodes every value it
  is given and throws on a malformed one; the throw ends the handler, so whatever the
  handler would have done after that call is not done.
*/
module GraphQLTable {
  import opened Wrappers
  import opened JsObject
  import opened Values
  import opened FilterEdits
  import opened RouteParams

  /** `{...routeParams, filter: encoded}`. */
  function WithFilter(routeParams: Dict<string>, encoded: string): (r: Dict<string>)
    ensures Get(r, "filter") == Some(encoded)
    ensures forall k :: k != "filter" ==> Get(r, k) == Get(routeParams, k)
  {
    Put(routeParams, "filter", encoded)
  }

  /** The pushed locations an update adds to the history: none when it throws. */
  function Trail(pushed: Option<string>): (t: seq<string>)
    ensures |t| == if pushed.Some? then 1 else 0
    ensures pushed.Some? ==> t[0] == pushed.value
  {
    if pushed.Some? then [pushed.value] else []
  }

  class Table {
    /** The filters the query is built from. */
    var filters: Filters
    /** The values shown by the drawer's widgets. */
    var bindValues: Filters
    /** Every filter map handed to the serializer, oldest first. */
    var submitted: seq<Filters>
    /** The route's query parameters (`query`, `filter`, `sort`, `direction`) and their
        setter. */
    const route: RouteParamsState
    /** The page's query string and path, which a raw history push leaves as they are. */
    const query: Dict<string>
    const pathname: string
    /** `encodeURIComponent(JSON.stringify(filters))`, taken as given. */
    const encode: Filters -> string

    ghost predicate Valid()
      reads this
    {
      WellFormed(filters) && WellFormed(bindValues)
    }

    /** The location the route setter pushes for `update`, or `None` when it throws. */
    function PushFor(update: Dict<string>): Option<string> {
      Pushed(pathname, query, update, route.options, route.decode, route.stringify)
    }

    /** Since the call began, the route setter ran on `update`: it threw exactly when
        `update` cannot be written, and then kept its state and pushed nothing. */
    twostate predicate RouteWritten(update: Dict<string>, thrown: bool)
      reads route
    {
      && (thrown <==> PushFor(update).None?)
      && route.state == (if thrown then old(route.state) else update)
      && route.history == old(route.history) + Trail(PushFor(update))
    }

    /** Since the call began, `committed` was stored and handed to the serializer when
        `done`, and otherwise the filters were left alone. */
    twostate predicate FiltersCommitted(committed: Filters, done: bool)
      reads this
    {
      && filters == (if done then committed else old(filters))
      && submitted == old(submitted) + (if done then [committed] else [])
    }

    constructor(route: RouteParamsState, query: Dict<string>, pathname: string, encode: Filters -> string)
      ensures filters == [] && bindValues == [] && submitted == []
      ensures this.route == route && this.query == query && this.pathname == pathname && this.encode == encode
      ensures Valid()
    {
      filters := [];
      bindValues := [];
      submitted := [];
      this.route := route;
      this.query := query;
      this.pathname := pathname;
      this.encode := encode;
    }

    /** The route setter on `update`: it throws exactly when the update cannot be
        written, and then nothing is pushed and the state is kept. */
    method SetRoute(update: Dict<string>) returns (thrown: bool)
      modifies route
      ensures RouteWritten(update, thrown)
    {
      thrown := route.SetState(update, query, pathname);
    }

    /** A click on tag `v` in column `key`: the toggled map is stored and handed to the
        serializer, and then written to the route, which may throw last. */
    method OnTagClick(key: string, v: FilterValue) returns (thrown: bool)
      modifies this, route
      ensures FiltersCommitted(ToggleTag(old(filters), key, v), true) && bindValues == old(bindValues)
      ensures RouteWritten(WithFilter(old(route.state), encode(filters)), thrown)
      ensures old(Valid()) ==> Valid()
    {
      if Valid() {
        ToggleTagDistinct(filters, key, v);
      }
      var tempFilters := Toggled(key, v);
      filters := tempFilters;
      submitted := submitted + [tempFilters];
      thrown := SetRoute(WithFilter(route.state, encode(tempFilters)));
    }

    /** The copy of the filter map that a click on tag `v` in column `key` builds. */
    method Toggled(key: string, v: FilterValue) returns (tempFilters: Filters)
      ensures tempFilters == ToggleTag(filters, key, v)
    {
      tempFilters := filters;
      var current := Get(tempFilters, key);
      if current.Some? {
        if v !in current.value {
          tempFilters := Put(tempFilters, key, current.value + [v]);
        } else {
          var kept := Without(current.value, v);
          tempFilters := Put(tempFilters, key, kept);
          if |kept| == 0 {
            RemovePut(filters, key, kept);
            tempFilters := Remove(tempFilters, key);
          }
        }
      } else {
        tempFilters := Put(tempFilters, key, [v]);
      }
    }

    /** Closing the tag of `value` in column `field`; the tag list is drawn from the
        filter map, so the column is present there. The bind map is stored first; the
        route is written next, and only when that does not throw are the filters stored
        and handed to the serializer. */
    method OnTagClose(field: string, value: FilterValue) returns (thrown: bool)
      requires Get(filters, field).Some?
      modifies this, route
      ensures bindValues == CloseInBind(old(bindValues), field, value)
      ensures var closed := CloseInBind(old(filters), field, value);
        RouteWritten(WithFilter(old(route.state), encode(closed)), thrown) && FiltersCommitted(closed, !thrown)
      ensures old(Valid()) ==> Valid() && !Selected(bindValues, field, value)
      ensures old(Valid()) && !thrown ==> !Selected(filters, field, value)
    {
      if Valid() {
        CloseTagEffect(bindValues, field, value);
        CloseTagEffect(filters, field, value);
      }
      var closed := CloseTag(bindValues, filters, field, value);
      bindValues := closed.0;
      thrown := SetRoute(WithFilter(route.state, encode(closed.1)));
      if !thrown {
        filters := closed.1;
        submitted := submitted + [closed.1];
      }
    }
  }
}
