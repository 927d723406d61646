/**
  The edits of the filter map and of the map bound to the filter widgets. Every handler
  copies the map, then assigns or deletes one column key; the result is what is handed
  on to the state setters and the serializer. Lists are immutable values here.
*/
module FilterEdits {
  import opened Wrappers
  import opened JsObject
  import opened Values

  /** Column `key` is present and lists `v`: the tag of `v` is shown as selected. */
  ghost predicate Selected(f: Filters, key: string, v: FilterValue) {
    Get(f, key).Some? && v in Get(f, key).value
  }

  /** `list.filter(item => item !== v)`. */
  function Without(list: seq<FilterValue>, v: FilterValue): (r: seq<FilterValue>)
    ensures forall x :: x in r <==> x in list && x != v
    ensures v !in list ==> r == list
  {
    if list == [] then []
    else
      var rest := Without(list[1..], v);
      assert list == [list[0]] + list[1..];
      if list[0] == v then rest else [list[0]] + rest
  }

  /** The filter drops every copy of `v` and keeps every other value as often as it
      occurs. */
  lemma {:induction false} WithoutCounts(list: seq<FilterValue>, v: FilterValue)
    ensures multiset(Without(list, v)) == multiset(list)[v := 0]
  {
    if list != [] {
      WithoutCounts(list[1..], v);
      assert list == [list[0]] + list[1..];
      assert multiset(list) == multiset([list[0]]) + multiset(list[1..]);
    }
  }

  /** The filter keeps the order of what it keeps: filtering a concatenation filters each
      part. */
  lemma {:induction false} WithoutAppend(a: seq<FilterValue>, b: seq<FilterValue>, v: FilterValue)
    ensures Without(a + b, v) == Without(a, v) + Without(b, v)
  {
    if a == [] {
      assert a + b == b;
    } else {
      var ab := a + b;
      assert ab[1..] == a[1..] + b;
      WithoutAppend(a[1..], b, v);
      var tail := Without(a[1..], v) + Without(b, v);
      if a[0] == v {
        assert Without(ab, v) == tail;
      } else {
        assert Without(ab, v) == [a[0]] + tail;
        assert [a[0]] + tail == ([a[0]] + Without(a[1..], v)) + Without(b, v);
      }
    }
  }

  /** `f[key] = list`, or `delete f[key]` when the list is empty. */
  function SetOrDelete(f: Filters, key: string, list: seq<FilterValue>): (r: Filters)
    ensures forall k :: k != key ==> Get(r, k) == Get(f, k)
    ensures Get(r, key) == if list == [] then None else Some(list)
  {
    if |list| == 0 then Remove(f, key) else Put(f, key, list)
  }

  /** The two edits all handlers are built from keep keys distinct and lists non-empty. */
  lemma SetOrDeleteWellFormed(f: Filters, key: string, list: seq<FilterValue>)
    requires WellFormed(f)
    ensures WellFormed(SetOrDelete(f, key, list))
  {
    if |list| == 0 {
      RemoveAllDistinct(f, {key});
    } else {
      PutDistinct(f, key, list);
    }
  }

  // ---------------------------------------------------------------- tag toggle

  /**
    A click on tag `v` of column `key`: an absent column gets `[v]`; a list without `v`
    gets `v` appended; otherwise every copy of `v` is removed and the column is deleted
    when nothing is left.
  */
  function ToggleTag(f: Filters, key: string, v: FilterValue): (r: Filters)
    ensures forall k :: k != key ==> Get(r, k) == Get(f, k)
    ensures Selected(r, key, v) <==> !Selected(f, key, v)
    ensures forall x :: x != v ==> (Selected(r, key, x) <==> Selected(f, key, x))
    ensures Get(f, key).None? ==> Get(r, key) == Some([v])
    ensures Get(f, key).Some? && v !in Get(f, key).value ==> Get(r, key) == Some(Get(f, key).value + [v])
    ensures Get(f, key).Some? && v in Get(f, key).value ==>
      Get(r, key) == if Without(Get(f, key).value, v) == [] then None else Some(Without(Get(f, key).value, v))
    ensures NoEmptyLists(f) ==> NoEmptyLists(r)
  {
    match Get(f, key)
    case None => Put(f, key, [v])
    case Some(list) =>
      if v !in list then Put(f, key, list + [v])
      else SetOrDelete(f, key, Without(list, v))
  }

  /** Toggling keeps the keys distinct. */
  lemma ToggleTagDistinct(f: Filters, key: string, v: FilterValue)
    requires DistinctKeys(f)
    ensures DistinctKeys(ToggleTag(f, key, v))
  {
    match Get(f, key)
    case None => PutDistinct(f, key, [v]);
    case Some(list) =>
      if v !in list {
        PutDistinct(f, key, list + [v]);
      } else if Without(list, v) == [] {
        RemoveAllDistinct(f, {key});
      } else {
        PutDistinct(f, key, Without(list, v));
      }
  }

  /** Selecting a tag and clicking it again gives back exactly the map before, key order
      included. */
  lemma {:induction false} ToggleTwice(f: Filters, key: string, v: FilterValue)
    requires WellFormed(f) && !Selected(f, key, v)
    ensures ToggleTag(ToggleTag(f, key, v), key, v) == f
  {
    match Get(f, key)
    case None =>
      RemoveAdded(f, key, [v]);
      assert Without([v], v) == [];
    case Some(list) =>
      var g := Put(f, key, list + [v]);
      assert Get(g, key) == Some(list + [v]);
      WithoutAppended(list, v);
      assert list != [];
      PutBack(f, key, list + [v], list);
  }

  /** From a selected tag the round trip does not hold: the value moves to the end of the
      list. */
  lemma ToggleTwiceFromSelected()
    ensures var f := [("t", [Str("v"), Str("a")])];
      && Selected(f, "t", Str("v"))
      && ToggleTag(ToggleTag(f, "t", Str("v")), "t", Str("v")) == [("t", [Str("a"), Str("v")])]
  {
    var f := [("t", [Str("v"), Str("a")])];
    var l := [Str("a")];
    assert Get(f, "t") == Some([Str("v"), Str("a")]);
    assert Without([Str("v"), Str("a")], Str("v")) == l by {
      assert [Str("v"), Str("a")][1..] == l;
      assert l[1..] == [];
    }
    assert Keys(f)[0] == "t";
    assert Replace(f, "t", l) == [("t", l)] by { assert f[1..] == []; }
    var g := ToggleTag(f, "t", Str("v"));
    assert g == [("t", l)];
    assert Get(g, "t") == Some(l);
    assert Keys(g)[0] == "t";
    assert l + [Str("v")] == [Str("a"), Str("v")];
    assert Replace(g, "t", [Str("a"), Str("v")]) == [("t", [Str("a"), Str("v")])] by { assert g[1..] == []; }
  }

  lemma {:induction false} WithoutAppended(list: seq<FilterValue>, v: FilterValue)
    requires v !in list
    ensures Without(list + [v], v) == list
  {
    if list == [] {
      assert [v][1..] == [];
    } else {
      var l := list + [v];
      assert l[0] == list[0] != v;
      assert l[1..] == list[1..] + [v];
      WithoutAppended(list[1..], v);
      assert Without(l, v) == [list[0]] + Without(l[1..], v);
      assert list == [list[0]] + list[1..];
    }
  }

  // ---------------------------------------------------------------- tag close

  /** Closing a tag in one map whose column is present: a date-range column (first
      element an array) is deleted whole; otherwise the value is filtered out and the
      column deleted when empty. */
  function DropTagValue(f: Filters, field: string, value: FilterValue): (r: Filters)
    requires Get(f, field).Some?
  {
    var list := Get(f, field).value;
    if |list| > 0 && list[0].Range? then Remove(f, field)
    else SetOrDelete(f, field, Without(list, value))
  }

  /** The bind-map half of closing a tag as written: the column's first element is read
      before the presence test, so a column missing from the bind map (every tag column)
      raises a `TypeError`. */
  function CloseInBindAsWritten(bind: Filters, field: string, value: FilterValue): (r: Result<Filters>)
  {
    if Get(bind, field).None? then Throws("TypeError: cannot read property '0' of undefined")
    else Ok(DropTagValue(bind, field, value))
  }

  /** Closing the tag of a tag column, which has no entry in the bind map, fails as
      written, although the filter map holds the tag's value. */
  lemma CloseTagColumnThrows()
    ensures var filters := [("tags", [Str("a")])];
      && Selected(filters, "tags", Str("a"))
      && CloseInBindAsWritten([], "tags", Str("a")).Throws?
  {
    var filters := [("tags", [Str("a")])];
    assert Get(filters, "tags") == Some([Str("a")]);
  }

  /** The bind-map half as evidently intended: a column absent from the bind map is left
      alone, as the presence test after the range test shows. */
  function CloseInBind(bind: Filters, field: string, value: FilterValue): (r: Filters)
  {
    if Get(bind, field).None? then bind else DropTagValue(bind, field, value)
  }

  /** After closing, the closed value is no longer selected in either map, a date-range
      column is gone altogether, every other value of the column and every other column is
      kept, and the maps stay well formed. */
  lemma CloseTagEffect(m: Filters, field: string, value: FilterValue)
    requires WellFormed(m)
    ensures var r := CloseInBind(m, field, value);
      && !Selected(r, field, value)
      && (forall k :: k != field ==> Get(r, k) == Get(m, k))
      && (Get(m, field).Some? && Get(m, field).value[0].Range? ==> Get(r, field).None?)
      && (Get(m, field).Some? && !Get(m, field).value[0].Range? ==>
            forall x :: x != value ==> (Selected(r, field, x) <==> Selected(m, field, x)))
      && WellFormed(r)
  {
    if Get(m, field).Some? {
      var list := Get(m, field).value;
      if |list| > 0 && list[0].Range? {
        RemoveAllDistinct(m, {field});
      } else {
        SetOrDeleteWellFormed(m, field, Without(list, value));
      }
    }
  }

  /** Closing a tag, as the model performs it: the bind map through `CloseInBind`, the
      filter map (which the tag was drawn from) directly. */
  function CloseTag(bind: Filters, filters: Filters, field: string, value: FilterValue): (r: (Filters, Filters))
    requires Get(filters, field).Some?
    ensures r.0 == CloseInBind(bind, field, value) && r.1 == CloseInBind(filters, field, value)
  {
    (CloseInBind(bind, field, value), DropTagValue(filters, field, value))
  }

  // ---------------------------------------------------------------- drawer handlers

  /** A typed value committed to column `col`: `[v]`, or no entry when the text is empty. */
  function CommitText(f: Filters, col: string, v: string): (r: Filters)
    ensures forall k :: k != col ==> Get(r, k) == Get(f, k)
    ensures Get(r, col) == if |v| == 0 then None else Some([Str(v)])
  {
    var t := Put(f, col, [Str(v)]);
    if |v| == 0 then Remove(t, col) else t
  }

  /** The filter and bind maps after an edit, in that order. */
  datatype Maps = Maps(filters: Filters, bind: Filters)

  /** The range picker: a picked range is stored as the column's single element in both
      maps; a cleared picker deletes the column from both. */
  function PickRange(m: Maps, col: string, picked: bool, start: string, end: string): (r: Maps)
    ensures picked ==> Get(r.filters, col) == Some([Range(start, end)]) && Get(r.bind, col) == Some([Range(start, end)])
    ensures !picked ==> Get(r.filters, col).None? && Get(r.bind, col).None?
  {
    var bind := Put(m.bind, col, [Range(start, end)]);
    if picked then Maps(Put(m.filters, col, [Range(start, end)]), bind)
    else Maps(Remove(m.filters, col), Remove(bind, col))
  }

  /** The checkbox group: the selection verbatim in both maps, or the column deleted from
      both when nothing is checked. */
  function CheckBoxes(m: Maps, col: string, selection: seq<FilterValue>): (r: Maps)
    ensures Get(r.filters, col) == Get(r.bind, col)
    ensures Get(r.filters, col) == if selection == [] then None else Some(selection)
  {
    if |selection| == 0 then Maps(Remove(m.filters, col), Remove(m.bind, col))
    else Maps(Put(m.filters, col, selection), Put(m.bind, col, selection))
  }

  /** The radio group: `[v]` in both maps. */
  function PickRadio(m: Maps, col: string, v: FilterValue): (r: Maps)
    ensures Get(r.filters, col) == Some([v]) && Get(r.bind, col) == Some([v])
  {
    Maps(Put(m.filters, col, [v]), Put(m.bind, col, [v]))
  }

  /** The per-column clear button. */
  function ClearColumn(m: Maps, col: string): (r: Maps)
    ensures Get(r.filters, col).None? && Get(r.bind, col).None?
  {
    Maps(Remove(m.filters, col), Remove(m.bind, col))
  }

  /** A picked or cleared range touches only its own column, keeps both maps well formed,
      and is undone by the column's clear button. */
  lemma PickRangeEffect(m: Maps, col: string, picked: bool, start: string, end: string)
    ensures var r := PickRange(m, col, picked, start, end);
      forall k :: k != col ==> Get(r.filters, k) == Get(m.filters, k) && Get(r.bind, k) == Get(m.bind, k)
    ensures WellFormed(m.filters) && WellFormed(m.bind) ==>
      var r := PickRange(m, col, picked, start, end); WellFormed(r.filters) && WellFormed(r.bind)
    ensures ClearColumn(PickRange(m, col, picked, start, end), col) == ClearColumn(m, col)
  {
    var range := [Range(start, end)];
    var bind := Put(m.bind, col, range);
    RemovePut(m.bind, col, range);
    if picked {
      RemovePut(m.filters, col, range);
    } else {
      RemoveAllTwice(m.filters, {col}, {col});
      RemoveAllTwice(bind, {col}, {col});
      assert {col} + {col} == {col};
    }
    if WellFormed(m.filters) && WellFormed(m.bind) {
      PutDistinct(m.bind, col, range);
      if picked {
        PutDistinct(m.filters, col, range);
      } else {
        RemoveAllDistinct(m.filters, {col});
        RemoveAllDistinct(bind, {col});
      }
    }
  }

  /** A checkbox change touches only its own column, keeps both maps well formed, and is
      undone by the column's clear button. */
  lemma CheckBoxesEffect(m: Maps, col: string, selection: seq<FilterValue>)
    ensures var r := CheckBoxes(m, col, selection);
      forall k :: k != col ==> Get(r.filters, k) == Get(m.filters, k) && Get(r.bind, k) == Get(m.bind, k)
    ensures WellFormed(m.filters) && WellFormed(m.bind) ==>
      var r := CheckBoxes(m, col, selection); WellFormed(r.filters) && WellFormed(r.bind)
    ensures ClearColumn(CheckBoxes(m, col, selection), col) == ClearColumn(m, col)
  {
    if |selection| == 0 {
      RemoveAllTwice(m.filters, {col}, {col});
      RemoveAllTwice(m.bind, {col}, {col});
      assert {col} + {col} == {col};
      if WellFormed(m.filters) && WellFormed(m.bind) {
        RemoveAllDistinct(m.filters, {col});
        RemoveAllDistinct(m.bind, {col});
      }
    } else {
      RemovePut(m.filters, col, selection);
      RemovePut(m.bind, col, selection);
      if WellFormed(m.filters) && WellFormed(m.bind) {
        PutDistinct(m.filters, col, selection);
        PutDistinct(m.bind, col, selection);
      }
    }
  }

  /** A radio choice touches only its own column, keeps both maps well formed, and is
      undone by the column's clear button. */
  lemma PickRadioEffect(m: Maps, col: string, v: FilterValue)
    ensures var r := PickRadio(m, col, v);
      forall k :: k != col ==> Get(r.filters, k) == Get(m.filters, k) && Get(r.bind, k) == Get(m.bind, k)
    ensures WellFormed(m.filters) && WellFormed(m.bind) ==>
      var r := PickRadio(m, col, v); WellFormed(r.filters) && WellFormed(r.bind)
    ensures ClearColumn(PickRadio(m, col, v), col) == ClearColumn(m, col)
  {
    RemovePut(m.filters, col, [v]);
    RemovePut(m.bind, col, [v]);
    if WellFormed(m.filters) && WellFormed(m.bind) {
      PutDistinct(m.filters, col, [v]);
      PutDistinct(m.bind, col, [v]);
    }
  }

  /** A committed text keeps the map well formed and is undone by deleting its column. */
  lemma CommitTextEffect(f: Filters, col: string, v: string)
    ensures WellFormed(f) ==> WellFormed(CommitText(f, col, v))
    ensures Remove(CommitText(f, col, v), col) == Remove(f, col)
  {
    var t := Put(f, col, [Str(v)]);
    RemovePut(f, col, [Str(v)]);
    if |v| == 0 {
      RemoveAllTwice(t, {col}, {col});
      assert {col} + {col} == {col};
    }
    if WellFormed(f) {
      PutDistinct(f, col, [Str(v)]);
      RemoveAllDistinct(t, {col});
    }
  }

  /** The clear button touches only its own column and keeps both maps well formed. */
  lemma ClearColumnEffect(m: Maps, col: string)
    ensures var r := ClearColumn(m, col);
      forall k :: k != col ==> Get(r.filters, k) == Get(m.filters, k) && Get(r.bind, k) == Get(m.bind, k)
    ensures WellFormed(m.filters) && WellFormed(m.bind) ==>
      var r := ClearColumn(m, col); WellFormed(r.filters) && WellFormed(r.bind)
  {
    if WellFormed(m.filters) && WellFormed(m.bind) {
      RemoveAllDistinct(m.filters, {col});
      RemoveAllDistinct(m.bind, {col});
    }
  }
}
