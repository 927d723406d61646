/**
  The route-parameter state of the table: its initial value is the allow-listed part of
  the page's query string, and every update is mirrored into the browser history. The
  mirrored query string is the page's query overlaid with the allow-listed part of the
  update, minus every key the update clears (an empty value, or one that decodes to an
  empty JSON object); an empty update pushes the bare path.
*/
module RouteParams {
  import opened Wrappers
  import opened JsObject

  /** `decodeURIComponent`, taken as given; `None` stands for the `URIError` it throws on a
      malformed escape. */
  type Decode = string -> Option<string>

  /** `acc` with `d`'s value put under each allow-listed key that `d` has, in allow-list
      order. `lodash.pick(d, options)` is this on `{}`, and `{...query, ...pick(d, options)}`
      is this on `query`: spreading the picked object into the copy of `query` replaces the
      keys `query` has in place and appends the others in the picked object's order. */
  function PickInto(acc: Dict<string>, d: Dict<string>, options: seq<string>, n: nat): (r: Dict<string>)
    requires n <= |options|
    ensures forall k :: Get(r, k) == if k in options[..n] && Get(d, k).Some? then Get(d, k) else Get(acc, k)
  {
    if n == 0 then acc
    else
      var prev := PickInto(acc, d, options, n - 1);
      assert options[..n] == options[..n - 1] + [options[n - 1]];
      var v := Get(d, options[n - 1]);
      if v.Some? then Put(prev, options[n - 1], v.value) else prev
  }

  /** `lodash.pick(d, options)`: only allow-listed keys, with `d`'s values. */
  function Pick(d: Dict<string>, options: seq<string>): (r: Dict<string>)
    ensures forall k :: Get(r, k) == if k in options then Get(d, k) else None
  {
    assert options[..|options|] == options;
    PickInto([], d, options, |options|)
  }

  /** A value that clears its key: empty (falsy), or decoding to `{}`. */
  predicate Cleared(v: string, decode: Decode) {
    |v| == 0 || decode(v) == Some("{}")
  }

  /** A value that can be examined without throwing: empty values are never decoded. */
  predicate Decodable(v: string, decode: Decode) {
    |v| == 0 || decode(v).Some?
  }

  /** The keys among the first `n` entries of `update` whose values clear them. */
  function ClearedKeys(update: Dict<string>, n: nat, decode: Decode): (ks: set<string>)
    requires n <= |update|
    ensures forall k :: k in ks ==> k in Keys(update)
  {
    if n == 0 then {}
    else
      var prev := ClearedKeys(update, n - 1, decode);
      assert Keys(update)[n - 1] == update[n - 1].0;
      if Cleared(update[n - 1].1, decode) then prev + {update[n - 1].0} else prev
  }

  /** The `forEach` over the first `n` entries of `update`, deleting each cleared key from
      `temp`; `None` when a `decodeURIComponent` call throws. */
  function DropCleared(temp: Dict<string>, update: Dict<string>, n: nat, decode: Decode): (r: Option<Dict<string>>)
    requires n <= |update|
  {
    if n == 0 then Some(temp)
    else
      match DropCleared(temp, update, n - 1, decode)
      case None => None
      case Some(acc) =>
        var key := update[n - 1].0;
        var v := update[n - 1].1;
        if |v| == 0 then Some(Remove(acc, key))
        else
          match decode(v)
          case None => None
          case Some(text) => if text == "{}" then Some(Remove(acc, key)) else Some(acc)
  }

  /** The deletion pass succeeds exactly when every examined value can be decoded, and
      then it has removed exactly the cleared keys. */
  lemma {:induction false} DropClearedOutcome(temp: Dict<string>, update: Dict<string>, n: nat, decode: Decode)
    requires n <= |update|
    ensures var r := DropCleared(temp, update, n, decode);
      && (r.Some? <==> forall i :: 0 <= i < n ==> Decodable(update[i].1, decode))
      && (r.Some? ==> forall k :: Get(r.value, k) == if k in ClearedKeys(update, n, decode) then None else Get(temp, k))
  {
    if n > 0 {
      DropClearedOutcome(temp, update, n - 1, decode);
    }
  }

  /** The parameters written for a non-empty update, or `None` when the update throws. */
  function Written(query: Dict<string>, update: Dict<string>, options: seq<string>, decode: Decode): Option<Dict<string>> {
    DropCleared(PickInto(query, update, options, |options|), update, |update|, decode)
  }

  /** The location an update pushes, or `None` when it throws before pushing. */
  function Pushed(pathname: string, query: Dict<string>, update: Dict<string>, options: seq<string>,
                  decode: Decode, stringify: Dict<string> -> string): Option<string>
  {
    if |update| > 0 then
      match Written(query, update, options, decode)
      case None => None
      case Some(t) => Some(pathname + "?" + stringify(t))
    else Some(pathname)
  }

  /** A key is among the cleared ones exactly when the update holds it with a clearing
      value. */
  lemma {:induction false} ClearedKeysOfUpdate(update: Dict<string>, n: nat, decode: Decode, i: nat)
    requires DistinctKeys(update) && n <= |update| && i < |update|
    ensures update[i].0 in ClearedKeys(update, n, decode) <==> i < n && Cleared(update[i].1, decode)
  {
    if n > 0 {
      ClearedKeysOfUpdate(update, n - 1, decode, i);
      if i != n - 1 {
        assert update[i].0 != update[n - 1].0;
      }
    }
  }

  /**
    What a successful update writes, key by key: a key the update clears is gone; an
    allow-listed key of the update takes the update's value; every other key keeps the
    page's query value, so a key outside the allow list that the query lacks never
    appears.
  */
  lemma WrittenEntries(query: Dict<string>, update: Dict<string>, options: seq<string>, decode: Decode, k: string)
    requires DistinctKeys(update)
    requires Written(query, update, options, decode).Some?
    ensures var t := Written(query, update, options, decode).value;
      Get(t, k) ==
        if Get(update, k).Some? && Cleared(Get(update, k).value, decode) then None
        else if k in options && Get(update, k).Some? then Get(update, k)
        else Get(query, k)
  {
    assert options[..|options|] == options;
    DropClearedOutcome(PickInto(query, update, options, |options|), update, |update|, decode);
    if k in Keys(update) {
      var i :| 0 <= i < |update| && Keys(update)[i] == k;
      GetAt(update, i);
      ClearedKeysOfUpdate(update, |update|, decode, i);
    }
  }

  /** An update throws exactly when it is non-empty and one of its non-empty values fails
      to decode. */
  lemma ThrowsIffUndecodable(pathname: string, query: Dict<string>, update: Dict<string>, options: seq<string>,
                             decode: Decode, stringify: Dict<string> -> string)
    ensures Pushed(pathname, query, update, options, decode, stringify).None? <==>
      |update| > 0 && exists i :: 0 <= i < |update| && !Decodable(update[i].1, decode)
  {
    DropClearedOutcome(PickInto(query, update, options, |options|), update, |update|, decode);
  }

  /** The `forEach` deleting the cleared keys of `update` from `temp`, stopping with
      `None` where `decodeURIComponent` throws. */
  method DeleteCleared(temp: Dict<string>, update: Dict<string>, decode: Decode) returns (r: Option<Dict<string>>)
    ensures r == DropCleared(temp, update, |update|, decode)
  {
    var tempNewState := temp;
    for i := 0 to |update|
      invariant DropCleared(temp, update, i, decode) == Some(tempNewState)
    {
      var key := update[i].0;
      var v := update[i].1;
      if |v| == 0 {
        tempNewState := Remove(tempNewState, key);
      } else {
        var text := decode(v);
        if text.None? {
          assert !Decodable(update[i].1, decode);
          DropClearedOutcome(temp, update, |update|, decode);
          return None;
        }
        if text.value == "{}" {
          tempNewState := Remove(tempNewState, key);
        }
      }
    }
    return Some(tempNewState);
  }

  class RouteParamsState {
    /** The state handed to the table. */
    var state: Dict<string>
    /** Locations pushed onto the browser history, oldest first. */
    var history: seq<string>
    const options: seq<string>
    /** `qs.stringify`, taken as given. */
    const stringify: Dict<string> -> string
    const decode: Decode

    /** `useState(pick(query, options))`. */
    constructor(query: Dict<string>, options: seq<string>, stringify: Dict<string> -> string, decode: Decode)
      ensures state == Pick(query, options) && history == []
      ensures this.options == options && this.stringify == stringify && this.decode == decode
    {
      state := Pick(query, options);
      history := [];
      this.options := options;
      this.stringify := stringify;
      this.decode := decode;
    }

    /**
      The setter, on the page's current `query` and `pathname`. It returns whether the
      update threw, in which case nothing was pushed and the state is unchanged; otherwise
      the location is pushed and the state becomes the update itself.
    */
    method SetState(update: Dict<string>, query: Dict<string>, pathname: string) returns (thrown: bool)
      modifies this
      ensures thrown <==> Pushed(pathname, query, update, options, decode, stringify).None?
      ensures thrown ==> state == old(state) && history == old(history)
      ensures !thrown ==>
        && state == update
        && history == old(history) + [Pushed(pathname, query, update, options, decode, stringify).value]
    {
      if |update| > 0 {
        var written := DeleteCleared(PickInto(query, update, options, |options|), update, decode);
        if written.None? {
          return true;
        }
        history := history + [pathname + "?" + stringify(written.value)];
      } else {
        history := history + [pathname];
      }
      state := update;
      thrown := false;
    }
  }
}
