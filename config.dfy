/** The configuration the compilers read, typed: a configuration item, the
    groups of items keyed by item name, and the namespaces they compile to.
    Covers `getReducersConfig` (src/main.js:155-157, index.js:130-132), the
    name and default-actions rules shared by `createAction` and
    `createReducer`, and the store-selection test of `createStores`
    (src/main.js:347, index.js:316). */
module Config {
  import opened Values
  import opened Naming

  /** An actions record in declaration order: (action name, action spec). */
  type Entries = seq<(string, Value)>

  /** One configuration item. `name` is "" when it is missing or falsy;
      `actions` is None when it is not a plain record; `immutableState` is
      the item's own state-projection callback when it is a function. */
  datatype Item = Item(name: string, actions: Option<Entries>, initialState: Value, immutableState: Value)

  /** A value of the top-level configuration object: either a bare list of
      items or a record whose `reducers` field may hold one (None when it is
      not an array) and whose `store` field is kept for the store filter. */
  datatype Group = Bare(items: seq<Item>) | Wrapped(reducers: Option<seq<Item>>, store: Value)

  /** `reducerConfig.name || itemName`. */
  function ReducerName(item: Item, itemName: string): (n: string)
    ensures n == (if item.name != "" then item.name else itemName)
    ensures n != "" || itemName == ""
  {
    if item.name != "" then item.name else itemName
  }

  /** The item's actions record, or the single default entry
      `{[reducerName]: {}}` when it has none. */
  function ActionsOf(item: Item, itemName: string): (e: Entries)
    ensures item.actions.Some? ==> e == item.actions.value
    ensures item.actions.None? ==> e == [(ReducerName(item, itemName), Obj(map[]))]
  {
    match item.actions
    case Some(entries) => entries
    case None => [(ReducerName(item, itemName), Obj(map[]))]
  }

  /** `getReducersConfig`: a bare list is used as it is, a record gives its
      `reducers` field; None when the result is not an array (the caller
      skips the group). */
  function GetReducersConfig(g: Group): (r: Option<seq<Item>>)
    ensures g.Bare? ==> r == Some(g.items)
    ensures g.Wrapped? ==> r == g.reducers
  {
    match g
    case Bare(items) => Some(items)
    case Wrapped(reducers, _) => reducers
  }

  /** `list[itemName].store`: an array has no such property. */
  function StoreFlag(g: Group): Value {
    match g
    case Bare(_) => Undef
    case Wrapped(_, store) => store
  }

  /** The item-selection test of `createStores`: the group must hold a list,
      and its store flag must be anything but `false` (src/main.js) or must
      be exactly `false` (index.js). */
  predicate GetsStore(variant: Variant, g: Group) {
    GetReducersConfig(g).Some? &&
    match variant
    case CommonJs => StoreFlag(g) != Bool(false)
    case EsModule => StoreFlag(g) == Bool(false)
  }

  /** The item names `createStores` builds a store for, in key order. */
  function StoreItems(variant: Variant, list: seq<(string, Group)>): (names: seq<string>)
    ensures forall n :: n in names <==> exists i :: 0 <= i < |list| && list[i].0 == n && GetsStore(variant, list[i].1)
    decreases |list|
  {
    if list == [] then []
    else
      var rest := StoreItems(variant, list[..|list| - 1]);
      assert forall i :: 0 <= i < |list| - 1 ==> list[..|list| - 1][i] == list[i];
      if GetsStore(variant, list[|list| - 1].1) then rest + [list[|list| - 1].0] else rest
  }

  /** The two files select complementary sets of list-holding groups. */
  lemma StorePolarityIsOpposite(g: Group)
    requires GetReducersConfig(g).Some?
    ensures GetsStore(CommonJs, g) <==> !GetsStore(EsModule, g)
  {
  }

  /** A namespace built by writing `ret[key] = value` for each pair in order
      (and by `merge` of function-valued records): later pairs win. */
  function Collect<T>(pairs: seq<(string, T)>): map<string, T>
    decreases |pairs|
  {
    if pairs == [] then map[]
    else Collect(pairs[..|pairs| - 1])[pairs[|pairs| - 1].0 := pairs[|pairs| - 1].1]
  }

  /** A key is in the namespace exactly when some pair has it, and it maps to
      the value of the last such pair. */
  lemma {:induction false} CollectLastWins<T>(pairs: seq<(string, T)>, k: string)
    ensures k in Collect(pairs) <==> exists i :: 0 <= i < |pairs| && pairs[i].0 == k
    ensures k in Collect(pairs) ==> exists i :: 0 <= i < |pairs| && pairs[i] == (k, Collect(pairs)[k]) &&
                                      forall j :: i < j < |pairs| ==> pairs[j].0 != k
    decreases |pairs|
  {
    if pairs != [] {
      var init := pairs[..|pairs| - 1];
      CollectLastWins(init, k);
      assert forall i :: 0 <= i < |init| ==> init[i] == pairs[i];
      if pairs[|pairs| - 1].0 != k && k in Collect(pairs) {
        var i :| 0 <= i < |init| && init[i] == (k, Collect(init)[k]) && forall j :: i < j < |init| ==> init[j].0 != k;
        assert pairs[i] == (k, Collect(pairs)[k]);
      }
    }
  }

  /** Merging two namespaces equals collecting the concatenated pairs. */
  lemma {:induction false} CollectAppend<T>(ps: seq<(string, T)>, qs: seq<(string, T)>)
    ensures Collect(ps + qs) == Collect(ps) + Collect(qs)
    decreases |qs|
  {
    if qs != [] {
      var init := qs[..|qs| - 1];
      assert (ps + qs)[..|ps + qs| - 1] == ps + init;
      CollectAppend(ps, init);
    } else {
      assert ps + qs == ps;
    }
  }
}
