/** Properties of the action compiler and the creators. */
module ActionsLaws {
  import opened Values
  import opened Naming
  import opened Merger
  import opened MergerLaws
  import opened Config
  import opened Actions

  /** The service lookup is "the first function among the candidates", with
      each file's fallback when there is none. */
  lemma ResolveServiceIsFirstFunction(variant: Variant, spec: Value, services: map<string, Value>, successType: string, name: string)
    ensures var found, r := FirstFunction(ServiceCandidates(spec, services, successType, name)),
                            ResolveService(variant, spec, services, successType, name);
      (found.Some? ==> r == found.value) &&
      (found.None? && variant == EsModule ==> r == Null) &&
      (found.None? && variant == CommonJs ==>
         r == if Truthy(Lookup(services, "defaultService")) then Lookup(services, "defaultService") else Null)
  {
    var c := ServiceCandidates(spec, services, successType, name);
    assert c[0] == Get(spec, "service") && c[1] == Lookup(services, successType) && c[2] == Lookup(services, name);
    if FirstFunction(c).None? {
      assert !c[0].Fn? && !c[1].Fn? && !c[2].Fn?;
    }
  }

  /** The two files resolve the same service whenever one of the three
      places holds a function; they differ only in the fallback. */
  lemma VariantsAgreeOnFoundServices(spec: Value, services: map<string, Value>, successType: string, name: string)
    requires exists i :: 0 <= i < 3 && ServiceCandidates(spec, services, successType, name)[i].Fn?
    ensures ResolveService(CommonJs, spec, services, successType, name) ==
            ResolveService(EsModule, spec, services, successType, name)
    ensures ResolveService(EsModule, spec, services, successType, name).Fn?
  {
    ResolveServiceIsFirstFunction(CommonJs, spec, services, successType, name);
    ResolveServiceIsFirstFunction(EsModule, spec, services, successType, name);
  }

  /** An explicit string `type` names the creator and its key; the error type
      follows as `type + "_error"` unless a non-empty `errorType` is given. */
  lemma ExplicitTypeOverrides(variant: Variant, name: string, spec: Value, services: map<string, Value>, t: string)
    requires spec.Obj? && Get(spec, "type") == Str(t)
    ensures var r := CompileEntry(variant, name, spec, services);
      r.Ok? && r.value.Some? && r.value.value.0 == t &&
      (r.value.value.1.Async? && !Truthy(Get(spec, "errorType")) ==> r.value.value.1.errorType == t + "_error")
  {
  }

  /** An item without an actions record compiles to one async creator under
      the canonical success type of its reducer name. */
  lemma DefaultActionIsAsync(variant: Variant, item: Item, itemName: string, services: map<string, Value>)
    requires item.actions.None?
    ensures var n := ReducerName(item, itemName);
      EntriesPairs(variant, ActionsOf(item, itemName), services) ==
        Ok([(SuccessType(variant, n),
             Async(SuccessType(variant, n), ErrorType(variant, n),
                   ResolveService(variant, Obj(map[]), services, SuccessType(variant, n), n)))])
  {
    var n := ReducerName(item, itemName);
    var entries := ActionsOf(item, itemName);
    assert entries == [(n, Obj(map[]))];
    assert entries[..0] == [];
    assert EntriesPairs(variant, entries[..0], services) == Ok([]);
    var compiled := CompileEntry(variant, n, Obj(map[]), services);
    assert compiled.Ok? && compiled.value.Some?;
    assert entries[|entries| - 1] == (n, Obj(map[]));
    assert [] + [compiled.value.value] == [compiled.value.value];
    assert EntriesPairs(variant, entries, services) == Ok([] + [compiled.value.value]);
    var t := ResolveTypes(variant, n, Obj(map[]));
    assert t == Types(SuccessType(variant, n), ErrorType(variant, n));
  }

  /** In index.js every entry yields a creator unless it is null or
      undefined, which throws; src/main.js never throws and keeps exactly the
      records and the entries equal to `true`. */
  lemma {:induction false} EntriesCoverage(variant: Variant, entries: Entries, services: map<string, Value>)
    ensures EntriesPairs(variant, entries, services).Thrown? <==>
      variant == EsModule && exists i :: 0 <= i < |entries| && (entries[i].1.Null? || entries[i].1.Undef?)
    ensures variant == EsModule && EntriesPairs(variant, entries, services).Ok? ==>
      |EntriesPairs(variant, entries, services).value| == |entries|
    ensures variant == CommonJs ==>
      |EntriesPairs(variant, entries, services).value| ==
        |Kept(entries)|
    decreases |entries|
  {
    if entries != [] {
      var init := entries[..|entries| - 1];
      EntriesCoverage(variant, init, services);
      assert forall i :: 0 <= i < |init| ==> init[i] == entries[i];
      assert Kept(entries) == Kept(init) + if Compiles(entries[|entries| - 1].1) then [entries[|entries| - 1]] else [];
    }
  }

  /** A spec src/main.js compiles: a record, or an entry equal to `true`. */
  predicate Compiles(spec: Value) {
    spec.Obj? || LooselyTrue(spec)
  }

  /** The entries src/main.js keeps. */
  function Kept(entries: Entries): (k: Entries)
    ensures forall e :: e in k ==> e in entries && Compiles(e.1)
    decreases |entries|
  {
    if entries == [] then []
    else
      var e := entries[|entries| - 1];
      Kept(entries[..|entries| - 1]) + if Compiles(e.1) then [e] else []
  }

  /** A group later in the list overrides earlier groups on every success
      type it defines. */
  lemma LaterGroupOverrides(variant: Variant, list: seq<(string, Group)>, last: (string, Group), services: map<string, Value>, k: string)
    requires GroupsPairs(variant, list, services).Ok?
    requires GetReducersConfig(last.1).Some?
    requires var q := ItemsPairs(variant, GetReducersConfig(last.1).value, last.0, services);
      q.Ok? && k in Collect(q.value)
    ensures var q := ItemsPairs(variant, GetReducersConfig(last.1).value, last.0, services);
      var all := Namespace(GroupsPairs(variant, list + [last], services));
      all.Ok? && k in all.value && all.value[k] == Collect(q.value)[k]
  {
    var ps := GroupsPairs(variant, list, services).value;
    var qs := ItemsPairs(variant, GetReducersConfig(last.1).value, last.0, services).value;
    assert (list + [last])[..|list|] == list;
    CollectAppend(ps, qs);
  }

  /** A sync creator without a service returns its argument as the data. */
  lemma SyncWithoutServiceEchoes(variant: Variant, name: string, services: map<string, Value>, param: Value, call: Call)
    requires !Lookup(services, SuccessType(variant, name)).Fn? && !Lookup(services, name).Fn?
    requires variant == CommonJs ==> !Lookup(services, "defaultService").Fn?
    ensures var r := CompileEntry(variant, name, Obj(map["mode" := Str("base")]), services);
      r.Ok? && r.value.Some? && r.value.value.1.Sync? &&
      InvokeSync(r.value.value.1, param, call) == ActionResult(SuccessType(variant, name), param)
  {
  }

  /** A worked example: results `{a: 1}` and `{a: 2, b: 3}` combine to
      `{a: 2, b: 3}`. */
  lemma PromiseDataExample()
    ensures MergeAll(map[], [Obj(map["a" := Num(1)]), Obj(map["a" := Num(2), "b" := Num(3)])], Deep) ==
            map["a" := Num(2), "b" := Num(3)]
  {
    var s := [Obj(map["a" := Num(1)]), Obj(map["a" := Num(2), "b" := Num(3)])];
    assert s[..0] == [] && s[..2] == s;
    MergeAllStep(map[], s, 0, Deep);
    MergeAllStep(map[], s, 1, Deep);
    var m1 := MergeAll(map[], s[..1], Deep);
    assert m1 == ExtendRecord(map[], s[0], Deep);
    CopyRecordIntoEmpty(map["a" := Num(1)]);
    assert m1 == map["a" := Num(1)];
    var r := ExtendRecord(m1, s[1], Deep);
    ExtendedField(m1, s[1].fields, Deep, "a");
    ExtendedField(m1, s[1].fields, Deep, "b");
    assert r.Keys == {"a", "b"};
  }

  /** An async creator whose single computation resolves to a record without
      undefined parts delivers that record unchanged. */
  lemma SingleResultIsDelivered(variant: Variant, c: Creator, f: map<string, Value>, dispatch: Dispatch)
    requires c.Async? && FieldsDefined(Obj(f))
    ensures Settle(variant, c, [Fulfilled(Obj(f))], dispatch).result == ActionResult(c.successType, Obj(f))
  {
    var vs := FulfilledValues([Fulfilled(Obj(f))]);
    assert vs == [Obj(f)];
    assert vs[..0] == [];
    assert MergeAll(map[], vs, Deep) == ExtendRecord(map[], Obj(f), Deep);
    CopyRecordIntoEmpty(f);
  }

  /** An async creator without a service delivers `{param: args}` under its
      success type once its sole computation resolves. */
  lemma AsyncWithoutServiceDeliversArguments(variant: Variant, c: Creator, args: seq<Value>, call: Call, dispatch: Dispatch)
    requires c.Async? && !c.service.Fn?
    requires FieldsDefined(Arr(args))
    ensures var reqs := AsyncRequests(c, args, call);
      |reqs| == 1 &&
      Settle(variant, c, [Fulfilled(reqs[0])], dispatch).result == ActionResult(c.successType, Obj(map["param" := Arr(args)]))
  {
    assert FieldsDefined(Obj(map["param" := Arr(args)]));
    SingleResultIsDelivered(variant, c, map["param" := Arr(args)], dispatch);
  }

  /** The index.js thunk after settling: every failure, a rejected
      computation or an exception from dispatching the success action, is
      reported under the error type and makes the thunk resolve to `false`,
      unless reporting it throws; only that throw rejects the thunk. A
      successful dispatch passes its return value on. */
  lemma ThunkOutcome(c: Creator, outcomes: seq<Outcome>, dispatch: Dispatch)
    requires c.Async?
    ensures var d := Settle(EsModule, c, outcomes, dispatch);
      var failed := !AllFulfilled(outcomes) || dispatch(d.result).Rejected?;
      var report := if d.recovery.Some? then d.recovery.value else d.result;
      (failed ==> report.actionType == c.errorType) &&
      (failed && dispatch(report).Fulfilled? ==> d.settles == Fulfilled(Bool(false))) &&
      (!failed ==> d.recovery.None? && d.settles == dispatch(d.result)) &&
      (d.settles.Rejected? ==> exists a: ActionResult :: a.actionType == c.errorType && dispatch(a) == d.settles)
  {
    var d := Settle(EsModule, c, outcomes, dispatch);
    var report := if d.recovery.Some? then d.recovery.value else d.result;
    if d.settles.Rejected? {
      assert report.actionType == c.errorType && dispatch(report) == d.settles;
    }
  }
}
