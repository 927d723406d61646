# antd-graphql-table: the query-state engine in Dafny

`antd-graphql-table` is a React table over a GraphQL connection. Under its widgets sits a
small engine of query state, and this project models that engine and proves properties
about it:

- **Filter and bind maps.** Each is a column-key → value-list object. The *bind* map holds
  what the drawer's widgets show. The *filter* map holds what the query is built from.
  Tag clicks, tag closes and every drawer widget edit them.
- **The serializer** (`handelSubmitFilters`). It turns the filter map, the free-text search
  and a `"field DIR"` sort string into the `query` and `orderBy` variables of the next fetch.
- **The title rewrite** (`finalQuery`). It turns `Title:` prefixes typed into the search box
  into column keys.
- **The text-input debounce.** One shared timer ref, plus the blur that commits early.
- **Two pagers.** The table's own page-number paging with "load more". The cursor pager
  steps by the backend's `pageInfo` cursors.
- **The route-parameter hook.** It mirrors state updates into the browser's query string.
- **`getDataIndex`.** It names a column after its data-index path.

The modules follow the source files:

| module | file(s) | form |
|---|---|---|
| `JsObject` | (JavaScript objects) | A plain object is an ordered dictionary `seq<(string, V)>`, because `Object.entries`, `forEach` and `qs.stringify` follow insertion order. Assignment replaces in place or appends. `delete` drops the entry. |
| `Strings` | | `trim`, `split`, `join`, the numeric test `^[-+]?[0-9]+(\.[0-9]+)?$` (as a scanner automaton), and `String.prototype.replace` with a string pattern. |
| `Values` | `src/types/BaseTypes.ts` | The filter values, `Variables`, `PageInfo` and `Direction`. |
| `DataIndex` | `src/utils/getDataIndex.ts` | Functions and lemmas. |
| `QuerySerializer` | `src/GraphQLTable.tsx` | Specification functions, plus the methods with the source's loops, proved equal to them. |
| `TitleRewrite` | `src/GraphQLTable.tsx` | The rewrite as written, and the word-by-word rewrite it evidently intends. The latter is implemented by a loop method. |
| `FilterEdits` | `src/GraphQLTable.tsx`, `src/components/FilterDrawer.tsx` | Each edit as a function on the maps, with lemmas stating its effect. |
| `GraphQLTable` | `src/GraphQLTable.tsx` | Class `Table`: the component's filter, bind and route-parameter state, and the two tag handlers. |
| `FilterDrawer` | `src/components/FilterDrawer.tsx` | The timer-ref state machine (as written and corrected). Class `Drawer`: the widget callbacks updating the `Table`. |
| `OffsetPagination` | `src/GraphQLTable.tsx` | `total`/`maxPage` arithmetic. Class `Pager` with `handlePageChange` and the reset effect. |
| `CursorPagination` | `src/components/Pagination.tsx` | The step functions. Class `Pager`, recording pushed locations, the stored snapshot and the reported variables. |
| `RouteParams` | `src/hooks/useRouteParamsState.tsx` | The pick, merge and delete functions. Class `RouteParamsState` with the setter's loop. |

Some collaborators are opaque and become function-typed parameters:

- `qs.stringify`;
- `encodeURIComponent(JSON.stringify(…))`;
- `decodeURIComponent`, partial: `None` stands for the `URIError` it throws;
- moment's start-of-day and end-of-day ISO texts.

Browser history, local storage and the callbacks to the parent become recorded values:

- sequences of pushed locations;
- the last snapshot;
- the list of submitted filter maps or reported variables.

The table's route parameters are the state of the route-parameter hook
(`RouteParams.RouteParamsState`). Its setter decodes each non-empty value it is given with
`decodeURIComponent`, which throws `URIError` on a malformed escape. Such a value can come
from the page's query string: `?query=100%25` gives the text "100%". On a throw the setter
pushes nothing and keeps its state. Otherwise it stores its argument verbatim. A throw also
ends the handler that made the call, so the handler's later steps are skipped. Each
handler therefore returns whether the route write threw. It makes its calls in the
source's order:

- A tag click, a range, checkbox or radio edit, and the per-column clear store the maps
  and submit the filters first, then write the route.
- A tag close stores the bind map, then writes the route. Only if that succeeds does it
  store and submit the filters.
- A text commit (timer or blur) writes the route first. Only if that succeeds does it
  store and submit the filters. A timer whose commit throws leaves its id in the ref.
- Clear-all writes the empty update, which never throws.

## Model

| member | source | states |
|---|---|---|
| DataIndex.Texts | src/utils/getDataIndex.ts:3 | The parts' string forms, one per part, in order. |
| DataIndex.ShortPaths | src/utils/getDataIndex.ts:2-4 | A one-element array path names the same column as its element alone. An empty path gives "". |
| DataIndex.ColumnKey | src/utils/getDataIndex.ts:2-4 | The column key: an array path's parts joined with ".", a plain index as it is. Its properties are the lemmas on either side of this row. |
| DataIndex.KeySplitsIntoParts | src/utils/getDataIndex.ts:3 | Splitting a joined path on "." recovers the parts' texts when no property name contains ".". |
| Strings.IntToString | src/utils/getDataIndex.ts:3 | An array position's text is its decimal numeral: digits without a leading zero whose value is the number, after a "-" for a negative number. It is non-empty and has no ".". |
| Strings.IntToStringInjective | src/utils/getDataIndex.ts:3 | Different positions have different texts. |
| Strings.Trim | src/GraphQLTable.tsx:212 | `trim` gives a slice `s[n..m]` of the text with only white space before `n` and after `m`, and no white space at either end of the result. |
| Strings.TrimEmptyIff | src/GraphQLTable.tsx:212 | Trimming gives "" exactly when the text is all white space. An already-trimmed text is unchanged. |
| Strings.Split | src/GraphQLTable.tsx:207 | `split(" ")` gives one more piece than there are separators, and no piece holds the separator. |
| Strings.JoinSplit | src/GraphQLTable.tsx:207 | Joining the pieces with the separator gives back the text. |
| Strings.SplitJoin | src/GraphQLTable.tsx:207 | Splitting a join of separator-free pieces recovers the pieces. |
| Strings.NumericChars | src/GraphQLTable.tsx:194 | A string the numeric pattern accepts is non-empty and made of digits, signs and dots only. |
| Strings.IsNumeric | src/GraphQLTable.tsx:194 | The test `^[-+]?[0-9]+(\.[0-9]+)?$`, run as a scanner automaton. `Strings.NumericChars` and `QuerySerializer.QuotingIsReversible` state its properties. |
| Strings.Find | src/GraphQLTable.tsx:168 | The string pattern of `replace` is found at its first occurrence and nowhere earlier. `None` means it occurs nowhere. |
| Strings.ReplaceFirst | src/GraphQLTable.tsx:168 | `replace` with a string pattern changes the first occurrence that `Find` locates, and only that one. `TitleRewrite.ExampleReplace` shows it. |
| Values.DirectionNamed | src/GraphQLTable.tsx:216 | `Direction[name]` is `ASC` exactly for "ASC" and `DESC` exactly for "DESC", and `undefined` for any other name that is not an inherited `Object.prototype` property. |
| QuerySerializer.QuotingIsReversible | src/GraphQLTable.tsx:193-197 | A string operand is bare exactly when the string is numeric and quoted otherwise. Removing the quotes recovers the string, so no two strings give the same operand. |
| QuerySerializer.Operand | src/GraphQLTable.tsx:193-197 | The operand of a scalar clause. Its properties are `QuotingIsReversible`. |
| QuerySerializer.Clause | src/GraphQLTable.tsx:185-200 | Every value contributes a non-empty clause. |
| QuerySerializer.RangeClause | src/GraphQLTable.tsx:27-35 | A date range gives one parenthesised group that bounds the field from the start of the first day to the end of the last. The day bounds' ISO texts come from the `DayBounds` parameter. |
| QuerySerializer.RangeClauseBounds | src/GraphQLTable.tsx:27-35 | Read back at its quotes, the range clause gives the lower comparison on the field, the start-of-day text, the upper comparison and the end-of-day text, in order. So the field and both bounds can be recovered. |
| QuerySerializer.SingleColumnClauses | src/GraphQLTable.tsx:182-203 | A column whose list is empty or starts with "" contributes no clause. Otherwise it contributes one clause per value, in list order. |
| QuerySerializer.ClausesAppend | src/GraphQLTable.tsx:182 | Clauses follow map-entry order: the clauses of two concatenated maps are the first map's clauses followed by the second's. |
| QuerySerializer.TermsOfAppend | src/GraphQLTable.tsx:182-204 | The contributing (field, value) pairs of a concatenation split at the boundary. |
| QuerySerializer.TermsOfPrefix | src/GraphQLTable.tsx:182-204 | The terms of the first n columns depend only on those columns. |
| QuerySerializer.AppendClauseJoins | src/GraphQLTable.tsx:198-200 | Prefixing a space only when the string so far is non-empty is appending to a single-space join, so the first clause has no leading separator. |
| QuerySerializer.ValuesTextJoins | src/GraphQLTable.tsx:184-202 | One column's loop leaves the single-space join of the clauses so far and that column's clauses. |
| QuerySerializer.ColumnsTextJoins | src/GraphQLTable.tsx:181-204 | The whole loop leaves the single-space join of all clauses. The result is empty exactly when there are none. |
| QuerySerializer.QueryVariable | src/GraphQLTable.tsx:212-222 | `query`, when present, is non-empty and trimmed. It is absent exactly when the text is all white space. |
| QuerySerializer.OrderByPresence | src/GraphQLTable.tsx:206-225 | `orderBy` is present exactly when the sort text has exactly one space and the call did not pass "". It then names the field before the space and the direction after it. |
| QuerySerializer.OrderBy | src/GraphQLTable.tsx:206-225 | The `orderBy` variable. `OrderByPresence` and `OrderByOfMenuChoice` state when it is present and what it names. |
| QuerySerializer.OrderByOfMenuChoice | src/GraphQLTable.tsx:206-218 | A sort menu choice "field ASC" or "field DESC" gives that single ordering. |
| QuerySerializer.AppendValueClauses | src/GraphQLTable.tsx:184-202 | The inner `forEach` computes `ValuesText`. |
| QuerySerializer.ClauseString | src/GraphQLTable.tsx:181-204 | The outer `forEach` computes `ColumnsText`, which is the single-space join of the clauses. |
| QuerySerializer.SubmitFilters | src/GraphQLTable.tsx:175-229 | `query` is the trimmed free text (the passed query if truthy, else the rewritten search), a space, and the joined clauses, absent when empty. `orderBy` is as `OrderBy` says. The cursor and window variables pass through unchanged. |
| TitleRewrite.FindTitle | src/GraphQLTable.tsx:166 | `find` returns the first column with that title. Nothing is found exactly when no column has it. |
| TitleRewrite.LastColon | src/GraphQLTable.tsx:161 | The greedy `\S+` before `:` ends at the last colon of the word. |
| TitleRewrite.WordItem | src/GraphQLTable.tsx:161 | A word's match is a prefix of the word, ends with a colon, and has at least one character before it. |
| TitleRewrite.MatchesAreTitled | src/GraphQLTable.tsx:161 | Every match of `/(\S+):/g` is at least two non-white-space characters ending with a colon. |
| TitleRewrite.ExampleMatches | src/GraphQLTable.tsx:161 | The matches of "xa: a:" are "xa:" and "a:". |
| TitleRewrite.Matches | src/GraphQLTable.tsx:161 | `match(/(\S+):/g)`: the matches in order. `MatchesAreTitled` and `ExampleMatches` state their shape. |
| TitleRewrite.Candidate | src/GraphQLTable.tsx:165 | The match without its first colon. `CandidateOfItem` and `ExampleCandidates` state it. |
| TitleRewrite.ExampleCandidates | src/GraphQLTable.tsx:165-166 | Candidate "xa" names no column. Candidate "a" names the column titled "a". |
| TitleRewrite.ExampleReplace | src/GraphQLTable.tsx:168 | `replace("a:", "k:")` on "xa: a:" changes the first word. |
| TitleRewrite.AsWrittenRewritesAnotherWord | src/GraphQLTable.tsx:158-173 | As written, "xa: a:" with a column titled "a" becomes "xk: a:". |
| TitleRewrite.AsWrittenSingleWords | src/GraphQLTable.tsx:158-173 | As written, each word alone is rewritten as intended: "xa:" stays and "a:" becomes "k:". |
| TitleRewrite.FinalQueryAsWritten | src/GraphQLTable.tsx:158-173 | The rewrite as written. The two `AsWritten` lemmas show where it differs from the corrected one. |
| TitleRewrite.FinalQuery | src/GraphQLTable.tsx:158-173 | The corrected rewrite. `RewriteIsWordwise` and `RewriteTitledWord` state it. |
| TitleRewrite.MapOneWord | src/GraphQLTable.tsx:161 | A single word is mapped as a whole. |
| TitleRewrite.RewriteIsWordwise | src/GraphQLTable.tsx:158-173 | The corrected rewrite works word by word: white space is kept and each side is rewritten independently. |
| TitleRewrite.RewriteTitledWord | src/GraphQLTable.tsx:161-169 | A word `Title:rest` becomes `key:rest` when a column has that title, and is kept otherwise. |
| TitleRewrite.LastColonOfTitledWord | src/GraphQLTable.tsx:161 | In `name:rest` with no colon in `rest`, the match ends at the colon after `name`. |
| TitleRewrite.CandidateOfItem | src/GraphQLTable.tsx:165 | Removing the first colon from `name:` leaves `name` when `name` has no colon. |
| TitleRewrite.RewriteTitles | src/GraphQLTable.tsx:158-173 | The loop over the query computes the corrected rewrite `FinalQuery`. |
| FilterEdits.Without | src/GraphQLTable.tsx:250-252 | `filter(x => x !== v)` keeps exactly the elements other than `v`. A list without `v` is unchanged. |
| FilterEdits.WithoutCounts | src/GraphQLTable.tsx:250-252 | Every copy of `v` is dropped, and every other value is kept as often as it occurs. |
| FilterEdits.WithoutAppend | src/GraphQLTable.tsx:250-252 | The filter keeps order: filtering a concatenation filters each part in turn. |
| FilterEdits.SetOrDelete | src/GraphQLTable.tsx:250-255 | The key gets the list, or is deleted when the list is empty. Other keys are unchanged. |
| FilterEdits.SetOrDeleteWellFormed | src/GraphQLTable.tsx:253-255 | Setting or deleting keeps keys distinct and no list empty. |
| FilterEdits.ToggleTag | src/GraphQLTable.tsx:245-259 | An absent key becomes `[v]`. A missing `v` is appended. Otherwise the column becomes the list filtered of `v`, in order, or is deleted when that is empty. Selection of `v` flips, every other value and key is unchanged, and no list becomes empty. |
| FilterEdits.ToggleTagDistinct | src/GraphQLTable.tsx:245-259 | The toggle keeps keys distinct. |
| FilterEdits.WithoutAppended | src/GraphQLTable.tsx:247-252 | Removing a just-appended value restores the list. |
| FilterEdits.ToggleTwice | src/GraphQLTable.tsx:245-259 | On a well-formed map, toggling an unselected value twice gives back the original map. |
| FilterEdits.ToggleTwiceFromSelected | src/GraphQLTable.tsx:245-259 | From a selected value the round trip fails: `{t: [v, a]}` becomes `{t: [a]}` and then `{t: [a, v]}`. |
| FilterEdits.CloseTagColumnThrows | src/GraphQLTable.tsx:437 | As written, closing the tag of a tag-clicked filter throws, because that column is absent from the bind map. |
| FilterEdits.DropTagValue | src/GraphQLTable.tsx:450-460 | Closing a tag in one map that has the column. `CloseTagEffect` states its effect. |
| FilterEdits.CloseInBindAsWritten | src/GraphQLTable.tsx:436-447 | The bind-map half as written, which reads the column before testing for it. `CloseTagColumnThrows` shows the throw. |
| FilterEdits.CloseInBind | src/GraphQLTable.tsx:436-447 | The bind-map half as corrected. `CloseTagEffect` states its effect. |
| FilterEdits.CloseTagEffect | src/GraphQLTable.tsx:436-460 | After a close the value is no longer selected and other keys are unchanged. A date-range column is deleted whole. Other values of the column stay selected, and the map stays well formed. |
| FilterEdits.CloseTag | src/GraphQLTable.tsx:436-460 | The close applies the same edit to the bind and the filter map. |
| FilterEdits.CommitText | src/components/FilterDrawer.tsx:97-101 | A text commit sets the column to `[v]`, or deletes it for "". Other columns are unchanged. |
| FilterEdits.CommitTextEffect | src/components/FilterDrawer.tsx:184-188 | A text commit keeps the map well formed, and touches nothing outside its column. |
| FilterEdits.PickRange | src/components/FilterDrawer.tsx:224-233 | A picked range sets the column to `[[start, end]]` in both maps. A cleared picker deletes it from both. |
| FilterEdits.PickRangeEffect | src/components/FilterDrawer.tsx:224-233 | Other columns are unchanged and both maps stay well formed. Clearing the column afterwards undoes the edit. |
| FilterEdits.CheckBoxes | src/components/FilterDrawer.tsx:259-265 | Both maps get the selection verbatim, or lose the column when it is empty. |
| FilterEdits.CheckBoxesEffect | src/components/FilterDrawer.tsx:259-265 | Other columns are unchanged and both maps stay well formed. Clearing the column afterwards undoes the edit. |
| FilterEdits.PickRadio | src/components/FilterDrawer.tsx:302-303 | Both maps get `[value]`. |
| FilterEdits.PickRadioEffect | src/components/FilterDrawer.tsx:302-303 | Other columns are unchanged and both maps stay well formed. Clearing the column afterwards undoes the edit. |
| FilterEdits.ClearColumn | src/components/FilterDrawer.tsx:142-145 | The column is gone from both maps. |
| FilterEdits.ClearColumnEffect | src/components/FilterDrawer.tsx:142-145 | Every other column is kept and both maps stay well formed. |
| GraphQLTable.WithFilter | src/GraphQLTable.tsx:262-265 | `{...routeParams, filter}` sets `filter` and keeps every other parameter. |
| GraphQLTable.Table.constructor | src/GraphQLTable.tsx:106-109 | Both maps start empty (and well formed). |
| FilterDrawer.Drawer.constructor | src/components/FilterDrawer.tsx:85 | The timer ref starts `null` (`Idle`), over the given table. |
| GraphQLTable.Trail | src/hooks/useRouteParamsState.tsx:37-44 | An update adds one location to the history when it pushes one, and none when it throws. |
| GraphQLTable.Table.SetRoute | src/hooks/useRouteParamsState.tsx:28-46 | The route setter throws exactly when the update cannot be written. It then keeps its state and pushes nothing. Otherwise it pushes the update's location and stores the update. |
| GraphQLTable.Table.Toggled | src/GraphQLTable.tsx:245-259 | The copy the click handler builds is `ToggleTag` of the filter map. |
| GraphQLTable.Table.OnTagClick | src/GraphQLTable.tsx:244-266 | The filter map becomes the toggle of the old one and is submitted, and the maps stay well formed. Then the route write runs last, and it throws exactly when the new `filter` parameter cannot be written. |
| GraphQLTable.Table.OnTagClose | src/GraphQLTable.tsx:435-467 | The bind map gets the (corrected) close, and then the route is written. When that throws, the filters are not stored or submitted. Otherwise the filter map gets the close and is submitted. Afterwards the value is selected in neither map. |
| FilterDrawer.BlurTwiceCommitsTwice | src/components/FilterDrawer.tsx:180-198 | As written, typing once and leaving the input twice commits twice for one armed timer. |
| FilterDrawer.StepAsWritten | src/components/FilterDrawer.tsx:94-110 | The timer ref's step as written (blur at :180-198). `BlurTwiceCommitsTwice` shows the double commit. |
| FilterDrawer.Step | src/components/FilterDrawer.tsx:94-110 | The step as corrected. `CommitsBoundedByArms` bounds its commits. |
| FilterDrawer.CommitsBoundedByArms | src/components/FilterDrawer.tsx:94-110 | With the ref nulled on blur, no run of changes, firings and blurs commits more often than it arms timers, plus one for a timer already pending. |
| FilterDrawer.Drawer.CommitInput | src/components/FilterDrawer.tsx:97-107 | The route is written first. Only when that does not throw is the text commit on the given maps stored and submitted. The bind map is untouched, and the table's maps stay well formed. |
| FilterDrawer.Drawer.OnInputChange | src/components/FilterDrawer.tsx:171-179 | The bind map follows the keystroke at once, and a commit of the value on the current maps is armed in place of any pending one. The drawer's maps stay well formed. |
| FilterDrawer.Drawer.OnTimerFire | src/components/FilterDrawer.tsx:96-109 | The timer commits on the maps captured when it was armed, then the ref is nulled. When the route write throws, nothing is stored and the spent timer's id stays in the ref. The drawer's maps stay well formed. |
| FilterDrawer.Drawer.OnInputBlur | src/components/FilterDrawer.tsx:180-198 | With the ref set, the commit is made at once, with the route written first. With the ref empty nothing changes. The number of submissions follows the corrected timer machine, less a commit whose route write threw. The ref is nulled here (`timer := Idle`), unlike src/components/FilterDrawer.tsx:182-183, which leaves it set (see Findings). The drawer's maps stay well formed. |
| FilterDrawer.Drawer.CommitBoth | src/components/FilterDrawer.tsx:266-274 | A widget edit stores both maps and submits the filters. Then the route write runs last, and it may throw. |
| FilterDrawer.Drawer.OnRangeChange | src/components/FilterDrawer.tsx:223-242 | The range picker applies `PickRange`, submits and routes the filters, and keeps both maps well formed. |
| FilterDrawer.Drawer.OnCheckboxChange | src/components/FilterDrawer.tsx:256-275 | The checkbox group applies `CheckBoxes`, submits and routes the filters, and keeps both maps well formed. |
| FilterDrawer.Drawer.OnRadioChange | src/components/FilterDrawer.tsx:299-313 | The radio group applies `PickRadio`, submits and routes the filters, and keeps both maps well formed. |
| FilterDrawer.Drawer.OnClearColumn | src/components/FilterDrawer.tsx:141-153 | The clear button applies `ClearColumn`, submits and routes the filters, and keeps both maps well formed. |
| FilterDrawer.Drawer.OnClearAll | src/components/FilterDrawer.tsx:118-123 | Both maps and the route parameters become empty, the empty map is submitted, and the bare path is pushed: the empty update never throws. |
| OffsetPagination.Total | src/GraphQLTable.tsx:118-121 | The count exceeds the loaded rows exactly while more exist. The extra rows fill whole pages, so the last page is as full as the loaded rows leave it. |
| OffsetPagination.MaxPage | src/GraphQLTable.tsx:123 | `ceil(total / pageSize)`: the pages before the last hold fewer rows than the total, and the last holds the rest. |
| OffsetPagination.ExtraPageWhileMore | src/GraphQLTable.tsx:118-123 | While more rows exist there is exactly one page more than the loaded rows fill, so at least one. |
| OffsetPagination.Pager.constructor | src/GraphQLTable.tsx:97 | Paging starts on page 1. |
| OffsetPagination.Pager.HandlePageChange | src/GraphQLTable.tsx:125-135 | Requests while loading or outside `[1, maxPage]` are ignored. Load-more is called exactly when a request is accepted, more rows exist and the move goes forward onto the last page. An accepted request sets the page, unless it called load-more and that await did not complete (`loaded` false: the callback is missing or its promise rejects); then the page stays. |
| OffsetPagination.Pager.OnTotalChange | src/GraphQLTable.tsx:141-145 | With exactly two pages and more rows, the page resets to 1. Otherwise it is kept. |
| OffsetPagination.ResetCondition | src/GraphQLTable.tsx:141-145 | The reset fires exactly when more rows exist and between 1 and 10 rows are loaded. |
| CursorPagination.Location | src/components/Pagination.tsx:136-144 | The path always leads the location. A query string follows it, after "?", exactly when there are parameters. |
| CursorPagination.BarePathIffNoParams | src/components/Pagination.tsx:136-144 | The bare path is pushed exactly when there are no parameters. |
| CursorPagination.StepParams | src/components/Pagination.tsx:126-169 | The opposite cursor is dropped. This direction's cursor is set when the backend gave one and kept otherwise. Other parameters are unchanged. |
| CursorPagination.StepVariables | src/components/Pagination.tsx:128-169 | The window in this direction becomes 10 and the cursor is set when given. Every other variable is copied. |
| CursorPagination.ParamsAndVariablesAgree | src/components/Pagination.tsx:126-169 | The query string never names both cursors. When the backend gave the cursor, the query string and the fetch carry the same one. |
| CursorPagination.StaleBackwardSurvives | src/components/Pagination.tsx:128-167 | After a back step and then a forward step, both windows are 10 and the back step's `before` is still sent. |
| CursorPagination.VisibleIffSomeButtonEnabled | src/components/Pagination.tsx:197-206 | The pager is shown exactly when at least one button is enabled. |
| CursorPagination.Visible | src/components/Pagination.tsx:198 | The pager's visibility test. `VisibleIffSomeButtonEnabled` relates it to the buttons. |
| CursorPagination.Disabled | src/components/Pagination.tsx:201-206 | The buttons' disabled tests. `VisibleIffSomeButtonEnabled` relates them to the pager. |
| CursorPagination.Pager.OnLoad | src/components/Pagination.tsx:123-184 | Without a page in that direction nothing happens. Otherwise the new location is pushed, the snapshot becomes the new parameters, and the new variables are reported tagged with the direction. |
| RouteParams.PickInto | src/hooks/useRouteParamsState.tsx:31 | Allow-listed keys of the update take its values. Every other key keeps the base's value. |
| RouteParams.Pick | src/hooks/useRouteParamsState.tsx:21 | The initial state is the query restricted to the allow list. |
| RouteParams.DropClearedOutcome | src/hooks/useRouteParamsState.tsx:32-36 | The deletion pass succeeds exactly when every non-empty value decodes, and then it removes exactly the cleared keys. |
| RouteParams.DropCleared | src/hooks/useRouteParamsState.tsx:32-36 | The deletion pass. `DropClearedOutcome` states what it does. |
| RouteParams.ClearedKeysOfUpdate | src/hooks/useRouteParamsState.tsx:33 | A key is cleared exactly when the update gives it an empty value or one decoding to `{}`. |
| RouteParams.WrittenEntries | src/hooks/useRouteParamsState.tsx:31-36 | Cleared keys are absent. Allow-listed keys of the update take its value. All others keep the query's value, so keys outside the allow list are never added. |
| RouteParams.ThrowsIffUndecodable | src/hooks/useRouteParamsState.tsx:30-36 | An update throws exactly when it is non-empty and a non-empty value fails to decode. |
| RouteParams.Written | src/hooks/useRouteParamsState.tsx:31-36 | The written parameters. `WrittenEntries` states them key by key. |
| RouteParams.Pushed | src/hooks/useRouteParamsState.tsx:30-44 | The pushed location. `ThrowsIffUndecodable` states when there is none. |
| RouteParams.DeleteCleared | src/hooks/useRouteParamsState.tsx:32-36 | The `forEach` loop computes the deletion pass, stopping at the first throw. |
| RouteParams.RouteParamsState.constructor | src/hooks/useRouteParamsState.tsx:17-24 | The state starts as the allow-listed part of the query, and nothing is pushed. |
| RouteParams.RouteParamsState.SetState | src/hooks/useRouteParamsState.tsx:28-46 | A throwing update changes nothing. Otherwise its location is pushed: the merged, cleaned query string, or the bare path for an empty update. The state becomes the update verbatim. |

## Left out

- Rendering, styling, the antd widgets and the demo story are not modelled. Neither are the keyboard hooks or `useGoBackPage`: they only call the handlers above or read local storage.
- The page-load effect (src/GraphQLTable.tsx:275-324) is not modelled: it parses the route's `filter` with `JSON.parse` and maps keys back to titles. Its encoding pair with `encodeURIComponent(JSON.stringify(…))` is opaque, so no decode-after-encode property is stated.
- The search box's Enter handler (src/GraphQLTable.tsx:344-347), the sort menu (:364-371) and the sort clear (:395-400) are not modelled as handlers. Each resets the page to 1 (the sort clear only when a sort was chosen), then submits through the serializer (`SubmitFilters` takes their query and sort arguments), then writes the route last (`{...routeParams, query}`, or `sort` and `direction`). That last write can throw `URIError` like every other route write; the throw comes after the page reset and the submission, so it skips nothing.
- `setTimeout`'s delay and React's scheduling of effects and renders are not modelled. A timer is pending or not. The `await` of `onLoadMore` is a counter plus the `loaded` outcome of `HandlePageChange`.
- QuerySerializer.Clause: the ISO texts of a range's day bounds are parameters (`DayBounds`), not computed in a time zone.
- Range values always have both dates. A shorter array would make the code read `undefined` for the end, and it has no branch that skips such a column. So the model has no skip either.
- JavaScript orders integer-like object keys before the others. The dictionaries keep pure insertion order.
- FilterEdits.ToggleTag: lists are values. The shallow copy at src/GraphQLTable.tsx:245 means the `push` at :248 also changes the list of the previous filter map. The checkbox handler puts one `value` array into both maps (src/components/FilterDrawer.tsx:263-264), so the same `push` can also extend that column's list in the bind map. The aliasing is not modelled, so `Table.OnTagClick`'s `bindValues == old(bindValues)` does not hold in that case.
- FilterDrawer.Drawer.OnRangeChange: the bind map is handed to its setter before the key is deleted (src/components/FilterDrawer.tsx:227, 231). The model states the final object and not the shared reference.
- FilterEdits.ToggleTwice: only an unselected value round-trips. From a selected one the value moves to the end of the list (`FilterEdits.ToggleTwiceFromSelected`).
- FilterEdits.Without: `!==` on range arrays compares references. Values are compared structurally, which is the same for strings, numbers and booleans.
- FilterEdits.CloseTag: a date-range tag's value is its display text, and only the range branch (delete the column) uses it. The model passes a `FilterValue`.
- TitleRewrite.RewriteWord: `$` patterns in `String.prototype.replace` replacement text are not interpreted. Titles are strings, not React nodes.
- CursorPagination.Pager.OnLoad: the optional `onVariablesChange` is taken as present (the guard at src/components/Pagination.tsx:124 and :159 also tests it). Query parameters are strings, though `qs.parse` can give arrays or objects.
- OffsetPagination.Pager.HandlePageChange: `nextPage` is an integer. Fractional pages are not modelled.
- DataIndex.Part: a numeric path part is an integer array position, written by `IntToString`. `String` of a fractional number ("1.5") or of one at or above 1e21 (exponent notation, "1e+21") is not modelled.
- Values.DirectionNamed: only the enum's own keys are modelled. A name inherited from `Object.prototype` ("toString", "__proto__") gives a function or an object in the source, which `JSON.stringify` drops or writes as `{}`; the model gives `undefined` for it.
- RouteParams.PickInto: lodash's path syntax in `pick` (dotted or inherited keys) is not modelled. The allow list holds plain keys.

## Findings

| source | as written | input that shows it | evidently intended | confidence | as-written member | corrected member |
|---|---|---|---|---|---|---|
| src/GraphQLTable.tsx:437 | Closing a tag reads `tempBindValues[tag.field][0]` before checking that the bind map has the column. The comment at :439 notes that tag columns have no bind entry. | A filter `{tags: ["a"]}` set by a tag click and an empty bind map. Closing tag "a" throws a `TypeError`. | Skip the bind edit when the column is absent, as the `else if` at :440 does. | not executed | FilterEdits.CloseInBindAsWritten, FilterEdits.CloseTagColumnThrows | FilterEdits.CloseInBind, FilterEdits.CloseTagEffect |
| src/components/FilterDrawer.tsx:182-183 | A blur cancels the pending timer and commits, but leaves `timer.current` set. A later blur commits again. | Type once, leave the input, focus it and leave again. That is two commits for one armed timer. | Null the ref on blur, as the timer does at :108, so each armed timer commits at most once. | not executed | FilterDrawer.StepAsWritten, FilterDrawer.BlurTwiceCommitsTwice | FilterDrawer.Step, FilterDrawer.CommitsBoundedByArms, FilterDrawer.Drawer.OnInputBlur (corrected) |
| src/GraphQLTable.tsx:168 | Each matched `Title:` is replaced by `replace(item, …)`, which rewrites the first occurrence of that text in the whole query. That occurrence can be inside an earlier word. | The query "xa: a:" with a column keyed "k" titled "a" becomes "xk: a:". | Rewrite the matched word itself, giving "xa: k:". | not executed | TitleRewrite.FinalQueryAsWritten, TitleRewrite.AsWrittenRewritesAnotherWord | TitleRewrite.FinalQuery, TitleRewrite.RewriteIsWordwise |
