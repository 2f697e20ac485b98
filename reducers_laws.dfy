/** Properties of the compiled reducers, and how the types the action
    creators produce meet the entries the reducers scan. */
module ReducersLaws {
  import opened Values
  import opened Naming
  import opened Config
  import opened Actions
  import opened Projector
  import opened Reducers

  /** The default parameter `state = initialState`: a missing or undefined
      state is the initial state, any other state is used as it is. */
  lemma UndefinedStateIsInitial(host: Host, r: Reducer, result: ActionResult)
    ensures Current(r, None) == r.initial && Current(r, Some(Plain(Undef))) == r.initial
    ensures forall p :: p != Plain(Undef) ==> Current(r, Some(p)) == p
    ensures Reduce(host, r, Some(Plain(Undef)), result) == Reduce(host, r, None, result)
  {
  }

  /** A null or undefined state cannot be merged into: every branch taken
      on a match reads a property of the state, which throws. */
  lemma NullStateThrowsOnMatch(host: Host, r: Reducer, state: Option<Persistent>, result: ActionResult)
    requires Decide(r.variant, r.entries, result.actionType) != Pass
    requires Current(r, state) == Plain(Null) || Current(r, state) == Plain(Undef)
    ensures Reduce(host, r, state, result) == Thrown
  {
  }

  /** With no matching entry the reducer returns its state (or the initial
      state when the state is undefined) unchanged. */
  lemma NoMatchIsIdentity(host: Host, r: Reducer, state: Option<Persistent>, result: ActionResult)
    requires forall i :: 0 <= i < |r.entries| ==> Skipped(r.variant, r.entries[i], result.actionType)
    ensures Reduce(host, r, state, result) == Ok(Current(r, state))
  {
    DecidePasses(r.variant, r.entries, result.actionType);
  }

  /** The scan one entry further. */
  lemma DecideStep(variant: Variant, entries: Entries, resultType: string)
    requires entries != []
    ensures Decide(variant, entries, resultType) ==
      if Throws(entries[0]) then Crash
      else if SuccessMatch(variant, entries[0], resultType) then Success(entries[0].1)
      else if ErrorMatch(variant, entries[0], resultType) then Failure
      else Decide(variant, entries[1..], resultType)
  {
  }

  /** Once an entry decides, the entries after it are never looked at. */
  lemma {:induction false} LaterEntriesIgnored(variant: Variant, entries: Entries, more: Entries, resultType: string)
    requires Decide(variant, entries, resultType) != Pass
    ensures Decide(variant, entries + more, resultType) == Decide(variant, entries, resultType)
    decreases |entries|
  {
    if entries != [] {
      DecideStep(variant, entries, resultType);
      DecideStep(variant, entries + more, resultType);
      assert (entries + more)[0] == entries[0];
      if Skipped(variant, entries[0], resultType) {
        assert (entries + more)[1..] == entries[1..] + more;
        LaterEntriesIgnored(variant, entries[1..], more, resultType);
      }
    }
  }

  /** Entries that are passed over can be dropped from the front. */
  lemma {:induction false} SkippedPrefixIgnored(variant: Variant, skipped: Entries, rest: Entries, resultType: string)
    requires forall i :: 0 <= i < |skipped| ==> Skipped(variant, skipped[i], resultType)
    ensures Decide(variant, skipped + rest, resultType) == Decide(variant, rest, resultType)
    decreases |skipped|
  {
    if skipped != [] {
      assert (skipped + rest)[0] == skipped[0];
      assert (skipped + rest)[1..] == skipped[1..] + rest;
      SkippedPrefixIgnored(variant, skipped[1..], rest, resultType);
    } else {
      assert skipped + rest == rest;
    }
  }

  /** A canonical error match leaves every key but `errorInfo` alone and
      stores the result's data there, its plain records turned into maps. */
  lemma ErrorBranchSetsOnlyErrorInfo(host: Host, r: Reducer, state: Option<Persistent>, result: ActionResult)
    requires Decide(r.variant, r.entries, result.actionType) == Failure
    requires Current(r, state).PMap?
    ensures var s, next := Current(r, state).entries, Reduce(host, r, state, result);
      next.Ok? && next.value.PMap? &&
      next.value.entries.Keys == s.Keys + {"errorInfo"} &&
      next.value.entries["errorInfo"] == Project(result.data) &&
      forall k :: k in s && k != "errorInfo" ==> next.value.entries[k] == s[k]
  {
  }

  /** The default merge keeps the previous value when the incoming one is
      undefined or null, and every key the data does not mention. */
  lemma DefaultMergeKeepsPrevious(entries: map<string, Persistent>, data: Value, k: string)
    requires k in entries
    requires !data.Obj? || k !in data.fields || Missing(data.fields[k])
    ensures k in DefaultMerge(entries, data) && DefaultMerge(entries, data)[k] == entries[k]
  {
    if data.Obj? {
      MergeWithAt(entries, data.fields, k);
    }
  }

  /** An incoming array or a defined scalar or function replaces the
      previous value, and an incoming record over a map is merged into it
      key by key. */
  lemma DefaultMergeReplacesOrDescends(entries: map<string, Persistent>, fields: map<string, Value>, k: string)
    requires k in fields
    ensures var r := DefaultMerge(entries, Obj(fields));
      (fields[k].Arr? ==> r[k] == Plain(fields[k])) &&
      (fields[k].Obj? && k in entries && entries[k].PMap? ==>
         r[k] == PMap(MergeWith(entries[k].entries, fields[k].fields))) &&
      (fields[k].Obj? && (k !in entries || !entries[k].PMap?) ==> r[k] == Project(fields[k])) &&
      (!fields[k].Obj? && !fields[k].Arr? && !Missing(fields[k]) ==> r[k] == Plain(fields[k]))
  {
    MergeWithAt(entries, fields, k);
  }

  /** One key of the default merge. */
  lemma MergeWithAt(entries: map<string, Persistent>, fields: map<string, Value>, k: string)
    requires k in entries || k in fields
    ensures var r := MergeWith(entries, fields);
      k in r &&
      r[k] == if k !in fields then entries[k]
              else if k !in entries then Project(fields[k])
              else Combine(entries[k], fields[k])
  {
  }

  /** Merging a value into its own projection changes nothing. */
  lemma {:induction false} CombineWithOwnProjection(v: Value)
    ensures Combine(Project(v), v) == Project(v)
    decreases v
  {
    if v.Obj? {
      var p := Project(v).entries;
      var r := MergeWith(p, v.fields);
      forall k | k in r ensures r[k] == p[k] {
        MergeWithAt(p, v.fields, k);
        CombineWithOwnProjection(v.fields[k]);
      }
    }
  }

  lemma {:induction false} CombineIdempotent(prev: Persistent, next: Value)
    ensures Combine(Combine(prev, next), next) == Combine(prev, next)
    decreases next, 1
  {
    if prev.PMap? && next.Obj? {
      MergeWithIdempotent(prev.entries, next.fields);
    } else if !Missing(next) {
      CombineWithOwnProjection(next);
    }
  }

  /** Dispatching the same data twice through the default merge gives the
      state of dispatching it once. */
  lemma {:induction false} MergeWithIdempotent(entries: map<string, Persistent>, fields: map<string, Value>)
    ensures MergeWith(MergeWith(entries, fields), fields) == MergeWith(entries, fields)
    decreases Obj(fields), 0
  {
    var once := MergeWith(entries, fields);
    var twice := MergeWith(once, fields);
    forall k | k in twice ensures twice[k] == once[k] {
      MergeWithAt(entries, fields, k);
      MergeWithAt(once, fields, k);
      if k in fields {
        assert fields[k] < Obj(fields);
        if k in entries {
          CombineIdempotent(entries[k], fields[k]);
        } else {
          CombineWithOwnProjection(fields[k]);
        }
      }
    }
  }

  /** The success type a compiled creator produces is matched by the
      reducer entry it came from. */
  lemma CreatorTypeIsHandled(variant: Variant, name: string, spec: Value, services: map<string, Value>)
    requires var r := CompileEntry(variant, name, spec, services); r.Ok? && r.value.Some?
    ensures Decide(variant, [(name, spec)], CompileEntry(variant, name, spec, services).value.value.1.successType) ==
            Success(spec)
  {
  }

  /** An entry without an explicit type: the creator's error type is the
      canonical one, and the reducer records it in `errorInfo`. */
  lemma CanonicalErrorIsHandled(variant: Variant, name: string, spec: Value, services: map<string, Value>)
    requires !spec.Null? && !spec.Undef? && !Get(spec, "type").Str?
    requires var r := CompileEntry(variant, name, spec, services); r.Ok? && r.value.Some? && r.value.value.1.Async?
    ensures var c := CompileEntry(variant, name, spec, services).value.value.1;
      c.errorType == ErrorType(variant, name) &&
      Decide(variant, [(name, spec)], c.errorType) == Failure
  {
    var e := ErrorType(variant, name);
    assert |e| > |SuccessType(variant, name)|;
  }

  lemma SuffixCancels(a: string, b: string, suffix: string)
    ensures a + suffix == b + suffix ==> a == b
  {
    if a + suffix == b + suffix {
      assert a == (a + suffix)[..|a|];
      assert b == (b + suffix)[..|b|];
    }
  }

  /** An entry with an explicit `type` other than the canonical one: its
      creator reports failures under `type + "_error"`, but the reducer only
      looks for the canonical error type, so the failure leaves the state
      unchanged and `errorInfo` is never set. */
  lemma ExplicitErrorTypeIsIgnored(host: Host, variant: Variant, name: string, spec: Value, t: string,
                                   services: map<string, Value>, initialData: Value, initial: Persistent,
                                   state: Option<Persistent>, data: Value)
    requires spec.Obj? && Get(spec, "type") == Str(t) && !Truthy(Get(spec, "errorType"))
    requires Get(spec, "mode") != Str("base")
    requires t != SuccessType(variant, name) && t + "_error" != SuccessType(variant, name)
    ensures var r := CompileEntry(variant, name, spec, services);
      r.Ok? && r.value.Some? && r.value.value.1.Async? && r.value.value.1.errorType == t + "_error"
    ensures Reduce(host, Reducer(variant, [(name, spec)], initialData, initial), state, ActionResult(t + "_error", data)) ==
            Ok(Current(Reducer(variant, [(name, spec)], initialData, initial), state))
  {
    var e := t + "_error";
    var entries := [(name, spec)];
    assert |e| > |t|;
    SuffixCancels(SuccessType(variant, name), t, "_error");
    assert Skipped(variant, entries[0], e);
    NoMatchIsIdentity(host, Reducer(variant, entries, initialData, initial), state, ActionResult(e, data));
  }

  /** `createReducer`: a reducer name is defined exactly when some item
      carries it, and it holds the reducer of the last such item. */
  lemma CreateReducerLastWins(variant: Variant, host: Host, items: seq<Item>, itemName: string, k: string)
    ensures var ret := Collect(ReducerPairs(variant, host, items, itemName));
      (k in ret <==> exists i :: 0 <= i < |items| && ReducerName(items[i], itemName) == k) &&
      (k in ret ==> exists i :: 0 <= i < |items| && ReducerOf(variant, host, items[i], itemName) == (k, ret[k]) &&
                      forall j :: i < j < |items| ==> ReducerName(items[j], itemName) != k)
  {
    var ps := ReducerPairs(variant, host, items, itemName);
    CollectLastWins(ps, k);
  }

  /** `createReducers`: a later group overrides earlier groups on every
      reducer name it defines. */
  lemma LaterGroupReducersOverride(variant: Variant, host: Host, list: seq<(string, Group)>, last: (string, Group), k: string)
    requires GetReducersConfig(last.1).Some?
    requires k in Collect(ReducerPairs(variant, host, GetReducersConfig(last.1).value, last.0))
    ensures var all := Collect(GroupReducerPairs(variant, host, list + [last]));
      k in all && all[k] == Collect(ReducerPairs(variant, host, GetReducersConfig(last.1).value, last.0))[k]
  {
    assert (list + [last])[..|list|] == list;
    CollectAppend(GroupReducerPairs(variant, host, list), ReducerPairs(variant, host, GetReducersConfig(last.1).value, last.0));
  }
}
