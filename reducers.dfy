/** The reducer compiler: `createReducer` (src/main.js:255-303,
    index.js:224-272) and `createReducers` (src/main.js:310-320,
    index.js:279-289). A compiled reducer scans its action entries in
    declaration order; the first entry whose type matches the result decides
    the new state. */
module Reducers {
  import opened Values
  import opened Naming
  import opened Config
  import opened Actions
  import opened Projector

  /** The user callbacks a reducer may call, whose bodies are not known:
      a custom `merge` function (state as plain JSON, data, the item's raw
      initial state), a method of the persistent map named by a string
      (which throws when the state has no such method),
      `merge`, and an item's own `immutableState` projection. */
  datatype Host = Host(
    customMerge: (nat, Value, Value, Value) -> Persistent,
    named: (string, Persistent, Value) -> Result<Persistent>,
    immutableState: (nat, Value) -> Persistent)

  /** A compiled reducer: the entries it scans, the item's raw
      `initialState` (passed to custom merges) and the projected initial
      state (the default for an undefined state). */
  datatype Reducer = Reducer(variant: Variant, entries: Entries, initialData: Value, initial: Persistent)

  /** What the scan finds: an entry that throws (reading `type` from null or
      undefined), a success match with its spec, a canonical error match, or
      no match at all. */
  datatype Verdict = Crash | Success(spec: Value) | Failure | Pass

  /** The success test of one entry: its explicit `type` or its canonical
      success type equals the result's type. */
  predicate SuccessMatch(variant: Variant, entry: (string, Value), resultType: string) {
    Get(entry.1, "type") == Str(resultType) || SuccessType(variant, entry.0) == resultType
  }

  /** The error test of one entry: only its canonical error type. */
  predicate ErrorMatch(variant: Variant, entry: (string, Value), resultType: string) {
    ErrorType(variant, entry.0) == resultType
  }

  predicate Throws(entry: (string, Value)) {
    entry.1.Null? || entry.1.Undef?
  }

  /** An entry the scan passes over. */
  predicate Skipped(variant: Variant, entry: (string, Value), resultType: string) {
    !Throws(entry) && !SuccessMatch(variant, entry, resultType) && !ErrorMatch(variant, entry, resultType)
  }

  /** The verdict of the scan: decided by the first entry that is not
      skipped, Pass when every entry is. */
  function Decide(variant: Variant, entries: Entries, resultType: string): Verdict
    decreases |entries|
  {
    if entries == [] then Pass
    else
      var e := entries[0];
      if Throws(e) then Crash
      else if SuccessMatch(variant, e, resultType) then Success(e.1)
      else if ErrorMatch(variant, e, resultType) then Failure
      else Decide(variant, entries[1..], resultType)
  }

  /** The scan passes exactly when every entry is skipped. */
  lemma {:induction false} DecidePasses(variant: Variant, entries: Entries, resultType: string)
    ensures Decide(variant, entries, resultType) == Pass <==>
            forall i :: 0 <= i < |entries| ==> Skipped(variant, entries[i], resultType)
    decreases |entries|
  {
    if entries != [] {
      DecidePasses(variant, entries[1..], resultType);
      assert forall i :: 0 <= i < |entries| - 1 ==> entries[1..][i] == entries[i + 1];
      if Skipped(variant, entries[0], resultType) {
        assert forall i :: 0 <= i < |entries| ==> (i == 0 || entries[i] == entries[1..][i - 1]);
      }
    }
  }

  /** A verdict other than Pass comes from the first entry that is not
      skipped: it throws, matches the success test, or else matches the
      canonical error test. */
  lemma {:induction false} DecideFindsFirstDecider(variant: Variant, entries: Entries, resultType: string)
    requires Decide(variant, entries, resultType) != Pass
    ensures exists i ::
      (0 <= i < |entries| && !Skipped(variant, entries[i], resultType) &&
       (forall j :: 0 <= j < i ==> Skipped(variant, entries[j], resultType)) &&
       Decide(variant, entries, resultType) ==
         (if Throws(entries[i]) then Crash
          else if SuccessMatch(variant, entries[i], resultType) then Success(entries[i].1)
          else Failure))
    decreases |entries|
  {
    DecidePasses(variant, entries, resultType);
    if Skipped(variant, entries[0], resultType) {
      var rest := entries[1..];
      DecideFindsFirstDecider(variant, rest, resultType);
      var i :| 0 <= i < |rest| && !Skipped(variant, rest[i], resultType) &&
        (forall j :: 0 <= j < i ==> Skipped(variant, rest[j], resultType)) &&
        Decide(variant, rest, resultType) ==
          (if Throws(rest[i]) then Crash
           else if SuccessMatch(variant, rest[i], resultType) then Success(rest[i].1)
           else Failure);
      assert entries[i + 1] == rest[i];
      assert forall j :: 0 <= j < i + 1 ==> Skipped(variant, entries[j], resultType) by {
        forall j | 0 <= j < i + 1 ensures Skipped(variant, entries[j], resultType) {
          if j > 0 { assert entries[j] == rest[j - 1]; }
        }
      }
    } else {
      assert !Skipped(variant, entries[0], resultType);
    }
  }

  /** The incoming value the default merge treats as missing: `next ==
      undefined` holds for undefined and null. */
  predicate Missing(v: Value) {
    v.Undef? || v.Null?
  }

  /** The default merge of one key present in both: a map meets a record by
      merging recursively; a missing incoming value keeps the previous one;
      an array is stored as a plain array; anything else is projected. */
  function Combine(prev: Persistent, next: Value): Persistent
    decreases next, 1
  {
    if prev.PMap? && next.Obj? then PMap(MergeWith(prev.entries, next.fields))
    else if Missing(next) then prev
    else Project(next)
  }

  /** `state.mergeDeepWith(merger, data)` for record data: keys absent from
      the state take the projected incoming value, keys in both are
      combined, keys absent from the data are kept. */
  function MergeWith(entries: map<string, Persistent>, fields: map<string, Value>): (r: map<string, Persistent>)
    ensures r.Keys == entries.Keys + fields.Keys
    decreases Obj(fields), 0
  {
    map k | k in entries.Keys + fields.Keys ::
      if k !in fields then entries[k]
      else if k !in entries then Project(fields[k])
      else (assert fields[k] < Obj(fields); Combine(entries[k], fields[k]))
  }

  /** The default merge of a result's data into a map state; only record
      data is merged. */
  function DefaultMerge(entries: map<string, Persistent>, data: Value): map<string, Persistent> {
    if data.Obj? then MergeWith(entries, data.fields) else entries
  }

  /** The state the reducer works on: the default parameter `state =
      initialState` takes over when no state is passed or the state passed is
      `undefined`. */
  function Current(r: Reducer, state: Option<Persistent>): Persistent {
    if state.Some? && state.value != Plain(Undef) then state.value else r.initial
  }

  /** The reducer on `(state, result)`: an undefined state means the initial
      state; the verdict picks the branch; calling a map method on a state
      that is not a map throws. */
  function Reduce(host: Host, r: Reducer, state: Option<Persistent>, result: ActionResult): Result<Persistent> {
    var s := Current(r, state);
    match Decide(r.variant, r.entries, result.actionType)
    case Crash => Thrown
    case Pass => Ok(s)
    case Failure =>
      if s.PMap? then Ok(PMap(s.entries["errorInfo" := Project(result.data)])) else Thrown
    case Success(spec) =>
      var m := Get(spec, "merge");
      if m.Fn? then
        if s.PMap? then Ok(host.customMerge(m.id, ToPlain(s), result.data, r.initialData)) else Thrown
      else if m.Str? then
        if s == Plain(Null) || s == Plain(Undef) then Thrown else host.named(m.s, s, result.data)
      else if s.PMap? then Ok(PMap(DefaultMerge(s.entries, result.data)))
      else Thrown
  }

  /** The compiled reducer function: the for...in loop over the entries,
      returning from inside the loop at the first match. */
  method Dispatch(host: Host, r: Reducer, state: Option<Persistent>, result: ActionResult)
    returns (next: Result<Persistent>)
    ensures next == Reduce(host, r, state, result)
  {
    var s := if state.Some? && state.value != Plain(Undef) then state.value else r.initial;
    var entries := r.entries;
    var i := 0;
    while i < |entries|
      invariant 0 <= i <= |entries|
      invariant Decide(r.variant, entries, result.actionType) == Decide(r.variant, entries[i..], result.actionType)
    {
      var (actionName, action) := entries[i];
      assert entries[i..][1..] == entries[i + 1..];
      if action.Null? || action.Undef? {
        return Thrown;
      }
      var types := GetActionType(r.variant, actionName, true);
      if Get(action, "type") == Str(result.actionType) || types.successType == result.actionType {
        var m := Get(action, "merge");
        if m.Fn? {
          if !s.PMap? {
            return Thrown;
          }
          return Ok(host.customMerge(m.id, ToPlain(s), result.data, r.initialData));
        } else if m.Str? {
          if s == Plain(Null) || s == Plain(Undef) {
            return Thrown;
          }
          return host.named(m.s, s, result.data);
        } else {
          if !s.PMap? {
            return Thrown;
          }
          return Ok(PMap(DefaultMerge(s.entries, result.data)));
        }
      } else if types.errorType == result.actionType {
        if !s.PMap? {
          return Thrown;
        }
        return Ok(PMap(s.entries["errorInfo" := Project(result.data)]));
      }
      i := i + 1;
    }
    return Ok(s);
  }

  /** The reducer one item compiles to, under its reducer name: its actions
      (or the default entry), its raw initial state, and the initial state
      projected by its own `immutableState` function or else by `toMap`. */
  function ReducerOf(variant: Variant, host: Host, item: Item, itemName: string): (p: (string, Reducer))
    ensures p.0 == ReducerName(item, itemName)
    ensures p.1.entries == ActionsOf(item, itemName)
    ensures item.immutableState.Fn? ==> p.1.initial == host.immutableState(item.immutableState.id, item.initialState)
    ensures !item.immutableState.Fn? ==> p.1.initial == ToMap(item.initialState)
  {
    var initial := if item.immutableState.Fn? then host.immutableState(item.immutableState.id, item.initialState)
                   else ToMap(item.initialState);
    (ReducerName(item, itemName), Reducer(variant, ActionsOf(item, itemName), item.initialState, initial))
  }

  /** The (name, reducer) pairs of a list of items, in order. */
  function ReducerPairs(variant: Variant, host: Host, items: seq<Item>, itemName: string): (ps: seq<(string, Reducer)>)
    ensures |ps| == |items|
    ensures forall i :: 0 <= i < |items| ==> ps[i] == ReducerOf(variant, host, items[i], itemName)
  {
    seq(|items|, i requires 0 <= i < |items| => ReducerOf(variant, host, items[i], itemName))
  }

  /** The pairs of every group that holds a list, groups in key order. */
  function GroupReducerPairs(variant: Variant, host: Host, list: seq<(string, Group)>): seq<(string, Reducer)>
    decreases |list|
  {
    if list == [] then []
    else
      var last := list[|list| - 1];
      var ps := GroupReducerPairs(variant, host, list[..|list| - 1]);
      match GetReducersConfig(last.1)
      case None => ps
      case Some(items) => ps + ReducerPairs(variant, host, items, last.0)
  }

  /** `createReducer(reducersConfig, itemName)`: `ret[reducerName] =
      reducer` for each item, later items overriding. */
  method CreateReducer(variant: Variant, host: Host, items: seq<Item>, itemName: string)
    returns (ret: map<string, Reducer>)
    ensures ret == Collect(ReducerPairs(variant, host, items, itemName))
  {
    ret := map[];
    var i := 0;
    while i < |items|
      invariant 0 <= i <= |items|
      invariant ret == Collect(ReducerPairs(variant, host, items[..i], itemName))
    {
      var (reducerName, reducer) := ReducerOf(variant, host, items[i], itemName);
      ghost var ps := ReducerPairs(variant, host, items[..i + 1], itemName);
      assert ps[..|ps| - 1] == ReducerPairs(variant, host, items[..i], itemName);
      ret := ret[reducerName := reducer];
      i := i + 1;
    }
    assert items[..i] == items;
  }

  /** `createReducers(list)`: each list-holding group's reducers merged into
      one record, later groups overriding. */
  method CreateReducers(variant: Variant, host: Host, list: seq<(string, Group)>)
    returns (ret: map<string, Reducer>)
    ensures ret == Collect(GroupReducerPairs(variant, host, list))
  {
    ret := map[];
    var i := 0;
    while i < |list|
      invariant 0 <= i <= |list|
      invariant ret == Collect(GroupReducerPairs(variant, host, list[..i]))
    {
      assert list[..i + 1][..i] == list[..i];
      var (itemName, group) := list[i];
      var reducersConfig := GetReducersConfig(group);
      if reducersConfig.Some? {
        var reducers := CreateReducer(variant, host, reducersConfig.value, itemName);
        CollectAppend(GroupReducerPairs(variant, host, list[..i]), ReducerPairs(variant, host, reducersConfig.value, itemName));
        ret := ret + reducers;
      }
      i := i + 1;
    }
    assert list[..i] == list;
  }
}
