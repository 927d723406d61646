/**
  The cursor pager below the table: "previous" and "next" buttons that move the fetch
  window by the backend's cursors, mirror the cursor in the page's query string, keep a
  snapshot of those parameters and report the new variables to the table.
*/
module CursorPagination {
  import opened Wrappers
  import opened JsObject
  import opened Values

  /** The rows asked for by one step in either direction. */
  const StepSize: int := 10

  datatype Direction = Prev | Next

  /** `qs.stringify(params)`, taken as given. */
  type Stringify = Dict<string> -> string

  /** The pushed location: the path with the query string, or the bare path when there
      are no parameters. The path always leads, and a query string follows it only when
      there are parameters. */
  function Location(pathname: string, params: Dict<string>, stringify: Stringify): (url: string)
    ensures |pathname| <= |url| && url[..|pathname|] == pathname
    ensures |url| > |pathname| <==> |params| > 0
    ensures |params| > 0 ==> url[|pathname|] == '?' && url[|pathname| + 1..] == stringify(params)
  {
    if |params| > 0 then pathname + "?" + stringify(params) else pathname
  }

  /** The bare path is pushed exactly when there are no parameters to show. */
  lemma BarePathIffNoParams(pathname: string, params: Dict<string>, stringify: Stringify)
    ensures Location(pathname, params, stringify) == pathname <==> |params| == 0
  {
    if |params| > 0 {
      assert |Location(pathname, params, stringify)| > |pathname|;
    }
  }

  /** The query parameters after a step: the opposite cursor is dropped and this
      direction's cursor is set when the backend gave one. */
  function StepParams(params: Dict<string>, dir: Direction, pageInfo: PageInfo): (r: Dict<string>)
    ensures dir == Next ==> Get(r, "before").None?
    ensures dir == Prev ==> Get(r, "after").None?
    ensures dir == Next ==> Get(r, "after") == if Truthy(pageInfo.endCursor) then pageInfo.endCursor else Get(params, "after")
    ensures dir == Prev ==> Get(r, "before") == if Truthy(pageInfo.startCursor) then pageInfo.startCursor else Get(params, "before")
    ensures forall k :: k != "after" && k != "before" ==> Get(r, k) == Get(params, k)
  {
    match dir
    case Next =>
      var p := Remove(params, "before");
      if Truthy(pageInfo.endCursor) then Put(p, "after", pageInfo.endCursor.value) else p
    case Prev =>
      var p := Remove(params, "after");
      if Truthy(pageInfo.startCursor) then Put(p, "before", pageInfo.startCursor.value) else p
  }

  /** The variables after a step: ten rows in this direction from the backend's cursor
      when it gave one; every other variable is copied. */
  function StepVariables(variables: Variables, dir: Direction, pageInfo: PageInfo): (r: Variables)
    ensures dir == Next ==> r.first == Some(StepSize) && r.last == variables.last && r.before == variables.before
    ensures dir == Prev ==> r.last == Some(StepSize) && r.first == variables.first && r.after == variables.after
    ensures dir == Next ==> r.after == if Truthy(pageInfo.endCursor) then pageInfo.endCursor else variables.after
    ensures dir == Prev ==> r.before == if Truthy(pageInfo.startCursor) then pageInfo.startCursor else variables.before
    ensures r.query == variables.query && r.orderBy == variables.orderBy
  {
    match dir
    case Next =>
      var v := variables.(first := Some(StepSize));
      if Truthy(pageInfo.endCursor) then v.(after := pageInfo.endCursor) else v
    case Prev =>
      var v := variables.(last := Some(StepSize));
      if Truthy(pageInfo.startCursor) then v.(before := pageInfo.startCursor) else v
  }

  /** Whether the backend reports a page in that direction. */
  function HasPage(pageInfo: PageInfo, dir: Direction): bool {
    if dir == Next then pageInfo.hasNextPage else pageInfo.hasPreviousPage
  }

  /** After any step the query string never names both cursors, and when the backend gave
      this direction's cursor the query string and the fetch carry the same one. */
  lemma ParamsAndVariablesAgree(params: Dict<string>, variables: Variables, dir: Direction, pageInfo: PageInfo)
    ensures var p := StepParams(params, dir, pageInfo);
      Get(p, "after").None? || Get(p, "before").None?
    ensures dir == Next && Truthy(pageInfo.endCursor) ==>
      Get(StepParams(params, dir, pageInfo), "after") == StepVariables(variables, dir, pageInfo).after
    ensures dir == Prev && Truthy(pageInfo.startCursor) ==>
      Get(StepParams(params, dir, pageInfo), "before") == StepVariables(variables, dir, pageInfo).before
  {
  }

  /** Going back and then forward leaves both window sizes and the backward cursor of the
      first step in the variables: the copy keeps what the other direction set. */
  lemma StaleBackwardSurvives(variables: Variables, back: PageInfo, forward: PageInfo)
    ensures var v := StepVariables(StepVariables(variables, Prev, back), Next, forward);
      && v.first == Some(StepSize) && v.last == Some(StepSize)
      && v.before == StepVariables(variables, Prev, back).before
  {
  }

  /** The pager is shown when either direction has a page. */
  function Visible(pageInfo: PageInfo): bool {
    pageInfo.hasPreviousPage || pageInfo.hasNextPage
  }

  /** A button is disabled when its direction has no page. */
  function Disabled(pageInfo: PageInfo, dir: Direction): bool {
    !HasPage(pageInfo, dir)
  }

  /** The pager is shown exactly when at least one of its buttons can be pressed. */
  lemma VisibleIffSomeButtonEnabled(pageInfo: PageInfo)
    ensures Visible(pageInfo) <==> !Disabled(pageInfo, Prev) || !Disabled(pageInfo, Next)
  {
  }

  class Pager {
    /** Locations pushed onto the browser history, oldest first. */
    var history: seq<string>
    /** The query parameters kept in local storage for this table. */
    var snapshot: Option<Dict<string>>
    /** The variables reported to the table, with the direction of the step. */
    var reported: seq<(Variables, Direction)>
    const stringify: Stringify

    constructor(stringify: Stringify)
      ensures history == [] && snapshot == None && reported == [] && this.stringify == stringify
    {
      history := [];
      snapshot := None;
      reported := [];
      this.stringify := stringify;
    }

    /**
      `onLoadPrev` / `onLoadNext` on the page's current query parameters: without a page
      in that direction nothing happens; otherwise the new parameters are pushed as the
      location, saved as the snapshot, and the new variables reported with the direction.
    */
    method OnLoad(dir: Direction, params: Dict<string>, pathname: string, variables: Variables, pageInfo: PageInfo)
      modifies this
      ensures !HasPage(pageInfo, dir) ==>
        history == old(history) && snapshot == old(snapshot) && reported == old(reported)
      ensures HasPage(pageInfo, dir) ==>
        var p := StepParams(params, dir, pageInfo);
        && history == old(history) + [Location(pathname, p, stringify)]
        && snapshot == Some(p)
        && reported == old(reported) + [(StepVariables(variables, dir, pageInfo), dir)]
    {
      if HasPage(pageInfo, dir) {
        var newQueryParams: Dict<string>;
        var tempVariables: Variables;
        if dir == Next {
          newQueryParams := Remove(params, "before");
          tempVariables := variables.(first := Some(StepSize));
          if Truthy(pageInfo.endCursor) {
            tempVariables := tempVariables.(after := pageInfo.endCursor);
            newQueryParams := Put(newQueryParams, "after", pageInfo.endCursor.value);
          }
        } else {
          newQueryParams := Remove(params, "after");
          tempVariables := variables.(last := Some(StepSize));
          if Truthy(pageInfo.startCursor) {
            newQueryParams := Put(newQueryParams, "before", pageInfo.startCursor.value);
            tempVariables := tempVariables.(before := pageInfo.startCursor);
          }
        }
        if |newQueryParams| > 0 {
          history := history + [pathname + "?" + stringify(newQueryParams)];
        } else {
          history := history + [pathname];
        }
        snapshot := Some(newQueryParams);
        reported := reported + [(tempVariables, dir)];
      }
    }
  }
}
