/** The action compiler: `createAction` (src/main.js:166-209,
    index.js:141-178), `createActions` (src/main.js:217-227, index.js:186-196),
    the creators `baseAction` and `asyncAction` (src/main.js:113-152,
    index.js:94-127) and `actionData`. */
module Actions {
  import opened Values
  import opened Naming
  import opened Merger
  import opened Config

  /** A compiled action creator. A sync creator (`baseAction`) only uses its
      success type; an async one (`asyncAction`) also its error type. The
      service is the resolved `actionService`, a function or not. */
  datatype Creator =
    | Sync(successType: string, service: Value)
    | Async(successType: string, errorType: string, service: Value)

  /** `actionData(type, data)`: the `{type, data}` message. */
  datatype ActionResult = ActionResult(actionType: string, data: Value)

  /** `v == true` under JavaScript's loose equality, for the values that
      compare equal to it here: `true` itself and the number 1. */
  predicate LooselyTrue(v: Value) {
    v == Bool(true) || v == Num(1)
  }

  /** src/main.js turns an entry equal to `true` into `{}` and skips entries
      that are then not plain records; index.js takes every entry as it is. */
  function NormalizeSpec(variant: Variant, spec: Value): (r: Option<Value>)
    ensures variant == CommonJs ==> (r.Some? <==> spec.Obj? || LooselyTrue(spec))
    ensures variant == CommonJs && LooselyTrue(spec) ==> r == Some(Obj(map[]))
    ensures variant == CommonJs && spec.Obj? ==> r == Some(spec)
    ensures variant == EsModule ==> r == Some(spec)
  {
    match variant
    case CommonJs =>
      var s := if LooselyTrue(spec) then Obj(map[]) else spec;
      if s.Obj? then Some(s) else None
    case EsModule => Some(spec)
  }

  datatype Types = Types(successType: string, errorType: string)

  /** The canonical pair for the entry's name, unless the spec has a string
      `type`: then that is the success type and the error type is the spec's
      `errorType` when it is a non-empty string, else `type + "_error"`. */
  function ResolveTypes(variant: Variant, name: string, spec: Value): (t: Types)
    ensures !Get(spec, "type").Str? ==> t == Types(SuccessType(variant, name), ErrorType(variant, name))
    ensures Get(spec, "type").Str? ==> t.successType == Get(spec, "type").s
    ensures Get(spec, "type").Str? && Get(spec, "errorType").Str? && Get(spec, "errorType").s != "" ==>
              t.errorType == Get(spec, "errorType").s
    ensures Get(spec, "type").Str? && !Truthy(Get(spec, "errorType")) ==>
              t.errorType == Get(spec, "type").s + "_error"
  {
    match Get(spec, "type")
    case Str(explicit) =>
      var e := Get(spec, "errorType");
      Types(explicit, if e.Str? && e.s != "" then e.s else explicit + "_error")
    case _ =>
      var p := GetActionType(variant, name, true);
      Types(p.successType, p.errorType)
  }

  /** The first function among the candidates, if any. */
  function FirstFunction(candidates: seq<Value>): (r: Option<Value>)
    ensures r.Some? <==> exists i :: 0 <= i < |candidates| && candidates[i].Fn?
    ensures r.Some? ==> exists i :: 0 <= i < |candidates| && candidates[i] == r.value &&
                          r.value.Fn? && forall j :: 0 <= j < i ==> !candidates[j].Fn?
  {
    if candidates == [] then None
    else if candidates[0].Fn? then Some(candidates[0])
    else
      var r := FirstFunction(candidates[1..]);
      if r.Some? then
        var i :| 0 <= i < |candidates[1..]| && candidates[1..][i] == r.value &&
                 r.value.Fn? && forall j :: 0 <= j < i ==> !candidates[1..][j].Fn?;
        assert candidates[i + 1] == r.value;
        r
      else r
  }

  /** The places a service is looked for, in priority order: the entry's own
      `service`, then the service map under the success type, then under the
      action name. */
  function ServiceCandidates(spec: Value, services: map<string, Value>, successType: string, name: string): seq<Value> {
    [Get(spec, "service"), Lookup(services, successType), Lookup(services, name)]
  }

  /** `actionService`: the entry's own service, else `service[successType]`,
      else `service[actionName]` (each only if it is a function); then
      src/main.js falls back to `service.defaultService || null`, index.js
      to null. */
  function ResolveService(variant: Variant, spec: Value, services: map<string, Value>, successType: string, name: string): Value {
    var own := Get(spec, "service");
    if own.Fn? then own
    else if Lookup(services, successType).Fn? then Lookup(services, successType)
    else if Lookup(services, name).Fn? then Lookup(services, name)
    else match variant
      case CommonJs =>
        var d := Lookup(services, "defaultService");
        if Truthy(d) then d else Null
      case EsModule => Null
  }

  /** One step of the inner `reduce`: the (successType, creator) pair an
      entry contributes, None when src/main.js skips it, Thrown when index.js
      reads `mode` from a null or undefined entry. */
  function CompileEntry(variant: Variant, name: string, spec: Value, services: map<string, Value>): (r: Result<Option<(string, Creator)>>)
    ensures r.Thrown? <==> variant == EsModule && (spec.Null? || spec.Undef?)
    ensures r == Ok(None) <==> variant == CommonJs && !spec.Obj? && !LooselyTrue(spec)
    ensures r.Ok? && r.value.Some? ==>
      var (key, c) := r.value.value;
      var t := ResolveTypes(variant, name, spec);
      key == c.successType == t.successType &&
      c.service == ResolveService(variant, spec, services, t.successType, name) &&
      (c.Sync? <==> Get(spec, "mode") == Str("base")) &&
      (c.Async? ==> c.errorType == t.errorType)
  {
    if variant == EsModule && (spec.Null? || spec.Undef?) then Thrown
    else match NormalizeSpec(variant, spec)
      case None => Ok(None)
      case Some(s) =>
        var t := ResolveTypes(variant, name, s);
        var svc := ResolveService(variant, s, services, t.successType, name);
        var c := if Get(s, "mode") != Str("base") then Async(t.successType, t.errorType, svc)
                 else Sync(t.successType, svc);
        Ok(Some((t.successType, c)))
  }

  /** The pairs an actions record contributes, in declaration order. */
  function EntriesPairs(variant: Variant, entries: Entries, services: map<string, Value>): Result<seq<(string, Creator)>>
    decreases |entries|
  {
    if entries == [] then Ok([])
    else
      var last := entries[|entries| - 1];
      match EntriesPairs(variant, entries[..|entries| - 1], services)
      case Thrown => Thrown
      case Ok(ps) =>
        match CompileEntry(variant, last.0, last.1, services)
        case Thrown => Thrown
        case Ok(None) => Ok(ps)
        case Ok(Some(p)) => Ok(ps + [p])
  }

  /** The pairs a list of items contributes, item after item. */
  function ItemsPairs(variant: Variant, items: seq<Item>, itemName: string, services: map<string, Value>): Result<seq<(string, Creator)>>
    decreases |items|
  {
    if items == [] then Ok([])
    else
      match ItemsPairs(variant, items[..|items| - 1], itemName, services)
      case Thrown => Thrown
      case Ok(ps) =>
        match EntriesPairs(variant, ActionsOf(items[|items| - 1], itemName), services)
        case Thrown => Thrown
        case Ok(qs) => Ok(ps + qs)
  }

  /** The pairs the whole configuration contributes: groups in key order,
      skipping groups that do not hold a list. */
  function GroupsPairs(variant: Variant, list: seq<(string, Group)>, services: map<string, Value>): Result<seq<(string, Creator)>>
    decreases |list|
  {
    if list == [] then Ok([])
    else
      var last := list[|list| - 1];
      match GroupsPairs(variant, list[..|list| - 1], services)
      case Thrown => Thrown
      case Ok(ps) =>
        match GetReducersConfig(last.1)
        case None => Ok(ps)
        case Some(items) =>
          match ItemsPairs(variant, items, last.0, services)
          case Thrown => Thrown
          case Ok(qs) => Ok(ps + qs)
  }

  lemma ItemsPairsStep(variant: Variant, items: seq<Item>, i: nat, itemName: string, services: map<string, Value>)
    requires i < |items|
    ensures ItemsPairs(variant, items[..i + 1], itemName, services) ==
      match ItemsPairs(variant, items[..i], itemName, services)
      case Thrown => Thrown
      case Ok(ps) =>
        match EntriesPairs(variant, ActionsOf(items[i], itemName), services)
        case Thrown => Thrown
        case Ok(qs) => Ok(ps + qs)
  {
    assert items[..i + 1][..i] == items[..i];
  }

  /** An entry that throws stops the whole compilation. */
  lemma {:induction false} EntriesThrownStays(variant: Variant, entries: Entries, i: nat, services: map<string, Value>)
    requires i <= |entries|
    requires EntriesPairs(variant, entries[..i], services) == Thrown
    ensures EntriesPairs(variant, entries, services) == Thrown
    decreases |entries| - i
  {
    if i < |entries| {
      assert entries[..i + 1][..i] == entries[..i];
      EntriesThrownStays(variant, entries, i + 1, services);
    } else {
      assert entries[..i] == entries;
    }
  }

  lemma {:induction false} ItemsThrownStays(variant: Variant, items: seq<Item>, i: nat, itemName: string, services: map<string, Value>)
    requires i <= |items|
    requires ItemsPairs(variant, items[..i], itemName, services) == Thrown
    ensures ItemsPairs(variant, items, itemName, services) == Thrown
    decreases |items| - i
  {
    if i < |items| {
      assert items[..i + 1][..i] == items[..i];
      ItemsThrownStays(variant, items, i + 1, itemName, services);
    } else {
      assert items[..i] == items;
    }
  }

  lemma {:induction false} GroupsThrownStays(variant: Variant, list: seq<(string, Group)>, i: nat, services: map<string, Value>)
    requires i <= |list|
    requires GroupsPairs(variant, list[..i], services) == Thrown
    ensures GroupsPairs(variant, list, services) == Thrown
    decreases |list| - i
  {
    if i < |list| {
      assert list[..i + 1][..i] == list[..i];
      GroupsThrownStays(variant, list, i + 1, services);
    } else {
      assert list[..i] == list;
    }
  }

  /** A namespace of pairs, keeping a thrown error. */
  function Namespace(pairs: Result<seq<(string, Creator)>>): Result<map<string, Creator>> {
    match pairs
    case Thrown => Thrown
    case Ok(ps) => Ok(Collect(ps))
  }

  /** The inner `reduce` of `createAction`: `actionRet[successType] = creator`
      for each entry in declaration order. */
  method CompileEntries(variant: Variant, entries: Entries, services: map<string, Value>)
    returns (r: Result<map<string, Creator>>)
    ensures r == Namespace(EntriesPairs(variant, entries, services))
  {
    var actionRet: map<string, Creator> := map[];
    ghost var pairs: seq<(string, Creator)> := [];
    var i := 0;
    while i < |entries|
      invariant 0 <= i <= |entries|
      invariant EntriesPairs(variant, entries[..i], services) == Ok(pairs)
      invariant actionRet == Collect(pairs)
    {
      assert entries[..i + 1][..i] == entries[..i];
      var (name, spec) := entries[i];
      var compiled := CompileEntry(variant, name, spec, services);
      if compiled.Thrown? {
        EntriesThrownStays(variant, entries, i + 1, services);
        return Thrown;
      }
      if compiled.value.Some? {
        var (successType, creator) := compiled.value.value;
        actionRet := actionRet[successType := creator];
        pairs := pairs + [(successType, creator)];
      }
      i := i + 1;
    }
    assert entries[..i] == entries;
    r := Ok(actionRet);
  }

  /** `createAction(reducersConfig, itemName, service)`: each item's actions
      compiled and merged into one namespace, later items overriding. */
  method CreateAction(variant: Variant, items: seq<Item>, itemName: string, services: map<string, Value>)
    returns (r: Result<map<string, Creator>>)
    ensures r == Namespace(ItemsPairs(variant, items, itemName, services))
  {
    var ret: map<string, Creator> := map[];
    ghost var pairs: seq<(string, Creator)> := [];
    var i := 0;
    while i < |items|
      invariant 0 <= i <= |items|
      invariant ItemsPairs(variant, items[..i], itemName, services) == Ok(pairs)
      invariant ret == Collect(pairs)
    {
      assert items[..i + 1][..i] == items[..i];
      var entries := ActionsOf(items[i], itemName);
      var actions := CompileEntries(variant, entries, services);
      ghost var compiled := EntriesPairs(variant, entries, services);
      ItemsPairsStep(variant, items, i, itemName, services);
      if actions.Thrown? {
        ItemsThrownStays(variant, items, i + 1, itemName, services);
        return Thrown;
      }
      ghost var qs := compiled.value;
      CollectAppend(pairs, qs);
      ret := ret + actions.value;
      pairs := pairs + qs;
      i := i + 1;
    }
    assert items[..i] == items;
    r := Ok(ret);
  }

  /** `createActions(list, service)`: every group that holds a list is
      compiled with its key as item name; all results share one namespace. */
  method CreateActions(variant: Variant, list: seq<(string, Group)>, services: map<string, Value>)
    returns (r: Result<map<string, Creator>>)
    ensures r == Namespace(GroupsPairs(variant, list, services))
  {
    var ret: map<string, Creator> := map[];
    ghost var pairs: seq<(string, Creator)> := [];
    var i := 0;
    while i < |list|
      invariant 0 <= i <= |list|
      invariant GroupsPairs(variant, list[..i], services) == Ok(pairs)
      invariant ret == Collect(pairs)
    {
      assert list[..i + 1][..i] == list[..i];
      var (itemName, group) := list[i];
      var reducersConfig := GetReducersConfig(group);
      if reducersConfig.Some? {
        var actions := CreateAction(variant, reducersConfig.value, itemName, services);
        ghost var compiled := ItemsPairs(variant, reducersConfig.value, itemName, services);
        assert GroupsPairs(variant, list[..i + 1], services) ==
          if compiled.Thrown? then Thrown else Ok(pairs + compiled.value);
        if actions.Thrown? {
          GroupsThrownStays(variant, list, i + 1, services);
          return Thrown;
        }
        ghost var qs := compiled.value;
        CollectAppend(pairs, qs);
        ret := ret + actions.value;
        pairs := pairs + qs;
      }
      i := i + 1;
    }
    assert list[..i] == list;
    r := Ok(ret);
  }

  /** The host's calls of opaque functions: `call(id, args)` is what the
      function `Fn(id)` returns for these arguments. */
  type Call = (nat, seq<Value>) -> Value

  /** A sync creator called with `param`. */
  function InvokeSync(c: Creator, param: Value, call: Call): (r: ActionResult)
    requires c.Sync?
    ensures r.actionType == c.successType
    ensures c.service.Fn? ==> r.data == call(c.service.id, [param])
    ensures !c.service.Fn? ==> r.data == param
  {
    if c.service.Fn? then ActionResult(c.successType, call(c.service.id, [param]))
    else ActionResult(c.successType, param)
  }

  /** The deferred computations an async creator waits for: the service's
      result (a single one wrapped in a list), or with no service one
      computation resolving to `{param: args}`. */
  function AsyncRequests(c: Creator, args: seq<Value>, call: Call): (r: seq<Value>)
    requires c.Async?
    ensures !c.service.Fn? ==> r == [Obj(map["param" := Arr(args)])]
    ensures c.service.Fn? && call(c.service.id, args).Arr? ==> r == call(c.service.id, args).elems
    ensures c.service.Fn? && !call(c.service.id, args).Arr? ==> r == [call(c.service.id, args)]
  {
    if c.service.Fn? then
      var promises := call(c.service.id, args);
      if promises.Arr? then promises.elems else [promises]
    else [Obj(map["param" := Arr(args)])]
  }

  /** How one deferred computation settled. */
  datatype Outcome = Fulfilled(value: Value) | Rejected(error: Value)

  /** What the async creator delivers once everything has settled.
      src/main.js returns a promise that resolves with the success result or
      rejects with the error result. index.js returns a thunk that dispatches
      `result`; when that dispatch throws, its `.catch` dispatches the error
      as `recovery`; `settles` is how the thunk's promise ends. */
  datatype Delivery =
    | Resolves(result: ActionResult)
    | Rejects(result: ActionResult)
    | Dispatches(result: ActionResult, recovery: Option<ActionResult>, settles: Outcome)

  /** The store's `dispatch` as the thunk sees it: it returns a value or
      throws an error. */
  type Dispatch = ActionResult -> Outcome

  /** The `.catch` handler: dispatch the error action, then resolve to
      `false`; an exception from that dispatch rejects the thunk's promise. */
  function Recover(dispatch: Dispatch, failure: ActionResult): (o: Outcome)
    ensures dispatch(failure).Rejected? ==> o == dispatch(failure)
    ensures dispatch(failure).Fulfilled? ==> o == Fulfilled(Bool(false))
  {
    if dispatch(failure).Rejected? then dispatch(failure) else Fulfilled(Bool(false))
  }

  predicate AllFulfilled(outcomes: seq<Outcome>) {
    forall i :: 0 <= i < |outcomes| ==> outcomes[i].Fulfilled?
  }

  function FulfilledValues(outcomes: seq<Outcome>): (vs: seq<Value>)
    requires AllFulfilled(outcomes)
    ensures |vs| == |outcomes| && forall i :: 0 <= i < |vs| ==> vs[i] == outcomes[i].value
  {
    seq(|outcomes|, i requires 0 <= i < |outcomes| => outcomes[i].value)
  }

  /** The first rejection in the list. Which rejection `Promise.all` reports
      depends on timing; the contract promises only that it is one of them. */
  function SomeRejection(outcomes: seq<Outcome>): (e: Value)
    requires !AllFulfilled(outcomes)
    ensures exists i :: 0 <= i < |outcomes| && outcomes[i] == Rejected(e)
  {
    if outcomes[0].Rejected? then outcomes[0].error
    else
      assert !AllFulfilled(outcomes[1..]) by {
        var i :| 0 <= i < |outcomes| && !outcomes[i].Fulfilled?;
        assert outcomes[1..][i - 1] == outcomes[i];
      }
      var e := SomeRejection(outcomes[1..]);
      var i :| 0 <= i < |outcomes[1..]| && outcomes[1..][i] == Rejected(e);
      assert outcomes[i + 1] == Rejected(e);
      e
  }

  /** The settle step of `asyncAction` over the settled list: when every
      computation succeeded, the values are combined by `promiseData` (deep
      merges into `{}`, in list order) under the success type; otherwise the
      error type carries a rejection's error. In index.js an exception from
      dispatching the success action is caught like a rejection. */
  function Settle(variant: Variant, c: Creator, outcomes: seq<Outcome>, dispatch: Dispatch): (d: Delivery)
    requires c.Async?
    ensures AllFulfilled(outcomes) ==>
      d.result == ActionResult(c.successType, Obj(MergeAll(map[], FulfilledValues(outcomes), Deep)))
    ensures !AllFulfilled(outcomes) ==>
      d.result.actionType == c.errorType &&
      exists i :: 0 <= i < |outcomes| && outcomes[i] == Rejected(d.result.data)
    ensures variant == CommonJs ==> (d.Resolves? <==> AllFulfilled(outcomes)) && (d.Rejects? <==> !AllFulfilled(outcomes))
    ensures variant == EsModule ==> d.Dispatches?
    ensures d.Dispatches? ==> (d.recovery.Some? <==> AllFulfilled(outcomes) && dispatch(d.result).Rejected?)
    ensures d.Dispatches? && d.recovery.Some? ==>
      d.recovery.value == ActionResult(c.errorType, dispatch(d.result).error) &&
      d.settles == Recover(dispatch, d.recovery.value)
    ensures d.Dispatches? && !AllFulfilled(outcomes) ==> d.settles == Recover(dispatch, d.result)
    ensures d.Dispatches? && AllFulfilled(outcomes) && dispatch(d.result).Fulfilled? ==> d.settles == dispatch(d.result)
  {
    if AllFulfilled(outcomes) then
      var result := ActionResult(c.successType, Obj(MergeAll(map[], FulfilledValues(outcomes), Deep)));
      match variant
      case CommonJs => Resolves(result)
      case EsModule =>
        var sent := dispatch(result);
        if sent.Fulfilled? then Dispatches(result, None, sent)
        else
          var failure := ActionResult(c.errorType, sent.error);
          Dispatches(result, Some(failure), Recover(dispatch, failure))
    else
      var result := ActionResult(c.errorType, SomeRejection(outcomes));
      match variant
      case CommonJs => Rejects(result)
      case EsModule => Dispatches(result, None, Recover(dispatch, result))
  }
}
