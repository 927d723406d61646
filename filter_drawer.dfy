/**
  The filter drawer: one widget per filterable column, each writing the table's bind and
  filter maps through the edits of `FilterEdits`. A text input commits its value after a
  quiet second, or at once when it loses focus while that commit is still pending; one
  timer ref is shared by all inputs of the drawer.
*/
module FilterDrawer {
  import opened Wrappers
  import opened JsObject
  import opened Values
  import opened FilterEdits
  import opened GraphQLTable
  import opened RouteParams

  // ---------------------------------------------------------------- the timer ref

  /** What `timer.current` holds: nothing, a live timer, or the id of a timer that was
      cancelled but not forgotten. */
  datatype TimerRef = Null | Running | Cancelled

  /** What happens to the input: a keystroke, the timer going off, the input losing focus. */
  datatype InputEvent = Change | Fire | Blur

  /** One event as written: a change cancels any timer and arms a new one; the timer
      commits and nulls the ref; a blur with a non-null ref cancels the timer and commits,
      but leaves the ref set. Returns the new ref and the number of commits. */
  function StepAsWritten(t: TimerRef, e: InputEvent): (TimerRef, nat) {
    match e
    case Change => (Running, 0)
    case Fire => if t == Running then (Null, 1) else (t, 0)
    case Blur => if t != Null then (Cancelled, 1) else (t, 0)
  }

  /** One event as evidently intended: the blur also nulls the ref, as the firing timer
      does, so only a pending commit is ever run early. */
  function Step(t: TimerRef, e: InputEvent): (TimerRef, nat) {
    match e
    case Change => (Running, 0)
    case Fire => if t == Running then (Null, 1) else (t, 0)
    case Blur => if t != Null then (Null, 1) else (t, 0)
  }

  /** The number of timers armed by a sequence of events. */
  function Arms(es: seq<InputEvent>): nat {
    if es == [] then 0 else (if es[0] == Change then 1 else 0) + Arms(es[1..])
  }

  /** The commits a sequence of events causes from ref `t`, as written. */
  function CommitsAsWritten(t: TimerRef, es: seq<InputEvent>): nat
    decreases |es|
  {
    if es == [] then 0
    else
      var (t', n) := StepAsWritten(t, es[0]);
      n + CommitsAsWritten(t', es[1..])
  }

  /** The commits a sequence of events causes from ref `t`. */
  function Commits(t: TimerRef, es: seq<InputEvent>): nat
    decreases |es|
  {
    if es == [] then 0
    else
      var (t', n) := Step(t, es[0]);
      n + Commits(t', es[1..])
  }

  /** As written, typing once and then leaving the input twice (focusing it again in
      between) commits twice for a single armed timer. */
  lemma BlurTwiceCommitsTwice()
    ensures Arms([Change, Blur, Blur]) == 1
    ensures CommitsAsWritten(Null, [Change, Blur, Blur]) == 2
  {
    assert [Change, Blur, Blur][1..] == [Blur, Blur];
    assert [Blur, Blur][1..] == [Blur];
  }

  /** With the ref nulled on blur, every commit uses up one armed timer: a run never
      commits more often than it arms, plus one for a timer pending at the start. */
  lemma {:induction false} CommitsBoundedByArms(t: TimerRef, es: seq<InputEvent>)
    requires t != Cancelled
    ensures Commits(t, es) <= Arms(es) + (if t == Running then 1 else 0)
    decreases |es|
  {
    if es != [] {
      var (t', n) := Step(t, es[0]);
      CommitsBoundedByArms(t', es[1..]);
    }
  }

  // ---------------------------------------------------------------- the drawer

  /** The timer ref with the commit a live timer will make: the column, the typed value,
      and the filter map and route parameters of the render that armed it. `Spent` is the
      id of a timer that went off but whose commit threw before the ref was nulled. */
  datatype Timer =
    | Idle
    | Armed(col: string, value: string, filters: Filters, routeParams: Dict<string>)
    | Spent

  function RefOf(t: Timer): TimerRef {
    match t
    case Idle => Null
    case Armed(_, _, _, _) => Running
    case Spent => Cancelled
  }

  class Drawer {
    var timer: Timer
    /** The table whose maps and route parameters the drawer's callbacks update. */
    const table: Table

    /** The table's maps are well formed, and so is the filter map a pending commit will
        build on. */
    ghost predicate Valid()
      reads this, table
    {
      table.Valid() && (timer.Armed? ==> WellFormed(timer.filters))
    }

    constructor(table: Table)
      ensures this.table == table && timer == Idle
    {
      this.table := table;
      timer := Idle;
    }

    /** A text commit on top of the given filter map and route parameters: the route is
        written first, and only when that does not throw is `value` stored as the column's
        single filter (or its entry dropped for "") and handed to the serializer. */
    method CommitInput(col: string, value: string, base: Filters, routeBase: Dict<string>) returns (thrown: bool)
      modifies table, table.route
      ensures var committed := CommitText(base, col, value);
        table.RouteWritten(WithFilter(routeBase, table.encode(committed)), thrown) && table.FiltersCommitted(committed, !thrown)
      ensures table.bindValues == old(table.bindValues)
      ensures old(table.Valid()) && WellFormed(base) ==> table.Valid()
    {
      CommitTextEffect(base, col, value);
      var tempFilters := CommitText(base, col, value);
      thrown := table.SetRoute(WithFilter(routeBase, table.encode(tempFilters)));
      if !thrown {
        table.filters := tempFilters;
        table.submitted := table.submitted + [tempFilters];
      }
    }

    /** Typing in the input of `col`: the bind map follows at once, and a commit of the
        value on the current maps is armed, replacing any pending one. */
    method OnInputChange(col: string, value: string)
      modifies this, table
      ensures table.bindValues == CommitText(old(table.bindValues), col, value)
      ensures table.filters == old(table.filters) && table.submitted == old(table.submitted)
      ensures timer == Armed(col, value, table.filters, table.route.state)
      ensures RefOf(timer) == Step(RefOf(old(timer)), Change).0
      ensures old(Valid()) ==> Valid()
    {
      CommitTextEffect(table.bindValues, col, value);
      table.bindValues := CommitText(table.bindValues, col, value);
      timer := Armed(col, value, table.filters, table.route.state);
    }

    /** The armed timer goes off: its commit is made on the maps it captured, and the ref
        is nulled afterwards, so a commit that throws leaves the spent timer's id in it. */
    method OnTimerFire() returns (thrown: bool)
      requires timer.Armed?
      modifies this, table, table.route
      ensures var committed := CommitText(old(timer).filters, old(timer).col, old(timer).value);
        table.RouteWritten(WithFilter(old(timer).routeParams, table.encode(committed)), thrown)
        && table.FiltersCommitted(committed, !thrown)
      ensures table.bindValues == old(table.bindValues)
      ensures timer == if thrown then Spent else Idle
      ensures !thrown ==> RefOf(timer) == Step(RefOf(old(timer)), Fire).0
      ensures old(Valid()) ==> Valid()
    {
      thrown := CommitInput(timer.col, timer.value, timer.filters, timer.routeParams);
      timer := if thrown then Spent else Idle;
    }

    /** The input of `col` loses focus holding `value`: when the ref is set, the timer is
        cancelled and the commit made at once on the current maps; with the ref empty
        nothing happens. */
    method OnInputBlur(col: string, value: string) returns (thrown: bool)
      modifies this, table, table.route
      ensures if RefOf(old(timer)) != Null then
          var committed := CommitText(old(table.filters), col, value);
          table.RouteWritten(WithFilter(old(table.route.state), table.encode(committed)), thrown)
          && table.FiltersCommitted(committed, !thrown)
        else
          && !thrown
          && table.filters == old(table.filters) && table.submitted == old(table.submitted)
          && table.route.state == old(table.route.state) && table.route.history == old(table.route.history)
      ensures table.bindValues == old(table.bindValues)
      ensures timer == Idle && RefOf(timer) == Step(RefOf(old(timer)), Blur).0
      ensures |table.submitted| == |old(table.submitted)| + (if thrown then 0 else Step(RefOf(old(timer)), Blur).1)
      ensures old(Valid()) ==> Valid()
    {
      thrown := false;
      if timer != Idle {
        timer := Idle;
        thrown := CommitInput(col, value, table.filters, table.route.state);
      }
    }

    /** The maps after a widget edit: both stored and the filters handed to the serializer,
        and then the filters written to the route, which may throw last. */
    method CommitBoth(m: Maps) returns (thrown: bool)
      modifies table, table.route
      ensures table.filters == m.filters && table.bindValues == m.bind
      ensures table.submitted == old(table.submitted) + [m.filters]
      ensures table.RouteWritten(WithFilter(old(table.route.state), table.encode(m.filters)), thrown)
    {
      table.bindValues := m.bind;
      table.filters := m.filters;
      table.submitted := table.submitted + [m.filters];
      thrown := table.SetRoute(WithFilter(table.route.state, table.encode(m.filters)));
    }

    /** The range picker of `col` changes: a picked range, or a cleared picker. */
    method OnRangeChange(col: string, picked: bool, start: string, end: string) returns (thrown: bool)
      modifies table, table.route
      ensures Maps(table.filters, table.bindValues) ==
        PickRange(Maps(old(table.filters), old(table.bindValues)), col, picked, start, end)
      ensures table.submitted == old(table.submitted) + [table.filters]
      ensures table.RouteWritten(WithFilter(old(table.route.state), table.encode(table.filters)), thrown)
      ensures old(Valid()) ==> Valid()
    {
      var m := Maps(table.filters, table.bindValues);
      PickRangeEffect(m, col, picked, start, end);
      var tempBindValues := Put(table.bindValues, col, [Range(start, end)]);
      var tempFilters := table.filters;
      if picked {
        tempFilters := Put(tempFilters, col, [Range(start, end)]);
      } else {
        tempBindValues := Remove(tempBindValues, col);
        tempFilters := Remove(tempFilters, col);
      }
      thrown := CommitBoth(Maps(tempFilters, tempBindValues));
    }

    /** The checkbox group of `col` changes to `selection`. */
    method OnCheckboxChange(col: string, selection: seq<FilterValue>) returns (thrown: bool)
      modifies table, table.route
      ensures Maps(table.filters, table.bindValues) ==
        CheckBoxes(Maps(old(table.filters), old(table.bindValues)), col, selection)
      ensures table.submitted == old(table.submitted) + [table.filters]
      ensures table.RouteWritten(WithFilter(old(table.route.state), table.encode(table.filters)), thrown)
      ensures old(Valid()) ==> Valid()
    {
      var m := Maps(table.filters, table.bindValues);
      CheckBoxesEffect(m, col, selection);
      thrown := CommitBoth(CheckBoxes(m, col, selection));
    }

    /** The radio group of `col` changes to `v`. */
    method OnRadioChange(col: string, v: FilterValue) returns (thrown: bool)
      modifies table, table.route
      ensures Maps(table.filters, table.bindValues) ==
        PickRadio(Maps(old(table.filters), old(table.bindValues)), col, v)
      ensures table.submitted == old(table.submitted) + [table.filters]
      ensures table.RouteWritten(WithFilter(old(table.route.state), table.encode(table.filters)), thrown)
      ensures old(Valid()) ==> Valid()
    {
      var m := Maps(table.filters, table.bindValues);
      PickRadioEffect(m, col, v);
      thrown := CommitBoth(PickRadio(m, col, v));
    }

    /** The clear button of `col`. */
    method OnClearColumn(col: string) returns (thrown: bool)
      modifies table, table.route
      ensures Maps(table.filters, table.bindValues) ==
        ClearColumn(Maps(old(table.filters), old(table.bindValues)), col)
      ensures table.submitted == old(table.submitted) + [table.filters]
      ensures table.RouteWritten(WithFilter(old(table.route.state), table.encode(table.filters)), thrown)
      ensures old(Valid()) ==> Valid()
    {
      var m := Maps(table.filters, table.bindValues);
      ClearColumnEffect(m, col);
      thrown := CommitBoth(ClearColumn(m, col));
    }

    /** The clear-all button: both maps and the route parameters become empty, and the
        bare path is pushed; an empty update never throws. */
    method OnClearAll()
      modifies table, table.route
      ensures table.filters == [] && table.bindValues == [] && table.route.state == []
      ensures table.submitted == old(table.submitted) + [[]]
      ensures table.route.history == old(table.route.history) + [table.pathname]
      ensures table.Valid() && (old(Valid()) ==> Valid())
    {
      table.bindValues := [];
      table.filters := [];
      table.submitted := table.submitted + [[]];
      var thrown := table.SetRoute([]);
    }
  }
}
