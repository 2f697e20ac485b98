/** The object merger `merge(mode?, target, ...sources)` and its inner
    `extend(target, source, deep)` (src/main.js:46-73, index.js:19-47), and
    `promiseData`, which folds a list of settled results into one record
    (src/main.js:80-90, index.js:54-64). */
module Merger {
  import opened Values

  /** The three merge modes: no mode argument or `true` (deep), `false`
      (shallow) and the tag 'merge' (deep, without the array truncation). */
  datatype Mode = Deep | Shallow | DeepKeepLength

  /** How `merge` reads its first argument: a boolean or the string 'merge'
      is the mode, anything else is already the target. */
  function ModeOf(first: Value): (m: Option<Mode>)
    ensures m.Some? <==> first.Bool? || first == Str("merge")
    ensures m == Some(Shallow) <==> first == Bool(false)
    ensures m == Some(DeepKeepLength) <==> first == Str("merge")
  {
    match first
    case Bool(b) => Some(if b then Deep else Shallow)
    case Str(s) => if s == "merge" then Some(DeepKeepLength) else None
    case _ => None
  }

  /** The loop body's first test: in a deep mode, a record or a non-empty
      array is merged into the slot instead of being assigned. */
  predicate Descends(incoming: Value, mode: Mode) {
    mode != Shallow && (incoming.Obj? || (incoming.Arr? && |incoming.elems| > 0))
  }

  predicate SameKind(target: Value, source: Value) {
    (target.Obj? && source.Obj?) || (target.Arr? && source.Arr?)
  }

  /** The keys of a record whose value is not undefined: the ones the loop writes. */
  function Written(fields: map<string, Value>): set<string> {
    set k | k in fields && fields[k] != Undef
  }

  /** Element `i` of an array, `undefined` past its end (a hole). */
  function At(s: seq<Value>, i: nat): Value {
    if i < |s| then s[i] else Undef
  }

  /** One more than the last index of `s` that holds a value other than
      undefined; 0 if there is none. */
  function LastWritten(s: seq<Value>): (n: nat)
    ensures n <= |s|
    ensures forall i :: n <= i < |s| ==> s[i] == Undef
    ensures n > 0 ==> s[n - 1] != Undef
  {
    if s == [] then 0
    else if s[|s| - 1] != Undef then |s|
    else LastWritten(s[..|s| - 1])
  }

  function Max(a: nat, b: nat): nat {
    if a < b then b else a
  }

  /** Length of a target array after a source array is merged into it:
      deep mode sets it to the source's length, the other modes only grow it
      as far as the last index written. */
  function NewLength(t: seq<Value>, s: seq<Value>, mode: Mode): nat {
    if mode == Deep then |s| else Max(|t|, LastWritten(s))
  }

  /** What one iteration of the loop leaves in a slot that held `prev` when
      the source holds `incoming` there. */
  function Assign(prev: Value, incoming: Value, mode: Mode): Value
    decreases incoming, 1
  {
    if Descends(incoming, mode) then
      if incoming.Obj? then Extended(if prev.Obj? then prev else Obj(map[]), incoming, mode)
      else Extended(if prev.Arr? then prev else Arr([]), incoming, mode)
    else if incoming != Undef then incoming
    else prev
  }

  /** The value of `target` after `extend(target, source, mode)`, for a
      target of the same kind as the source (every recursive call is one). */
  function Extended(target: Value, source: Value, mode: Mode): (r: Value)
    requires SameKind(target, source)
    ensures r.Obj? == source.Obj? && r.Arr? == source.Arr?
    decreases source, 0
  {
    if source.Obj? then
      var w := Written(source.fields);
      Obj(map k | k in target.fields.Keys + w ::
            if k in w then Assign(Lookup(target.fields, k), source.fields[k], mode)
            else target.fields[k])
    else
      var t, s := target.elems, source.elems;
      var n := NewLength(t, s, mode);
      Arr(seq(n, i requires 0 <= i < n =>
            if i < |s| && s[i] != Undef then Assign(At(t, i), s[i], mode) else At(t, i)))
  }

  /** The fields of a record target after `extend(target, source, mode)` for
      any source: its enumerable keys are merged in, and an array source in
      deep mode also sets the target's `length` property. */
  function ExtendRecord(fields: map<string, Value>, source: Value, mode: Mode): map<string, Value> {
    var r := Extended(Obj(fields), Obj(Enumerate(source)), mode).fields;
    if source.Arr? && mode == Deep then r["length" := Num(|source.elems|)] else r
  }

  /** The fields of a record target after all sources, applied left to right. */
  function MergeAll(fields: map<string, Value>, sources: seq<Value>, mode: Mode): map<string, Value>
    decreases |sources|
  {
    if sources == [] then fields
    else ExtendRecord(MergeAll(fields, sources[..|sources| - 1], mode), sources[|sources| - 1], mode)
  }

  /** One iteration of `extend`'s loop for a slot holding `prev`: reset the
      slot to {} or [] when its kind differs and recurse, assign a defined
      leaf, or leave the slot alone. */
  method AssignSlot(prev: Value, incoming: Value, mode: Mode) returns (slot: Value)
    ensures slot == Assign(prev, incoming, mode)
    decreases incoming, 1
  {
    if Descends(incoming, mode) {
      if incoming.Obj? {
        slot := ExtendFields(if prev.Obj? then prev else Obj(map[]), incoming, mode);
      } else {
        slot := ExtendElems(if prev.Arr? then prev else Arr([]), incoming, mode);
      }
    } else if incoming != Undef {
      slot := incoming;
    } else {
      slot := prev;
    }
  }

  /** `extend` on a record source: the for...in loop over its keys. */
  method ExtendFields(target: Value, source: Value, mode: Mode) returns (r: Value)
    requires target.Obj? && source.Obj?
    ensures r == Extended(target, source, mode)
    decreases source, 0
  {
    var t, s := target.fields, source.fields;
    var w := Written(s);
    var acc := t;
    var todo := s.Keys;
    while todo != {}
      invariant todo <= s.Keys
      invariant forall k :: k in acc <==> k in t || (k in w && k !in todo)
      invariant forall k :: k in acc ==>
        acc[k] == if k in w && k !in todo then Assign(Lookup(t, k), s[k], mode) else t[k]
      decreases todo
    {
      var k :| k in todo;
      if s[k] != Undef {
        var slot := AssignSlot(Lookup(acc, k), s[k], mode);
        acc := acc[k := slot];
      }
      todo := todo - {k};
    }
    r := Obj(acc);
  }

  /** The target array after the loop has visited the first `i` indices of
      the source (writing past the end leaves holes before the new element). */
  function Partial(t: seq<Value>, s: seq<Value>, i: nat, mode: Mode): (p: seq<Value>)
    requires i <= |s|
    ensures |p| == Max(|t|, LastWritten(s[..i]))
  {
    var n := Max(|t|, LastWritten(s[..i]));
    seq(n, j requires 0 <= j < n =>
      if j < i && s[j] != Undef then Assign(At(t, j), s[j], mode) else At(t, j))
  }

  lemma PartialStep(t: seq<Value>, s: seq<Value>, i: nat, mode: Mode)
    requires i < |s|
    ensures var p, slot := Partial(t, s, i, mode), Assign(At(Partial(t, s, i, mode), i), s[i], mode);
      Partial(t, s, i + 1, mode) ==
        if s[i] == Undef then p
        else if i < |p| then p[i := slot]
        else p + seq(i - |p|, _ => Undef) + [slot]
  {
    assert s[..i + 1][..i] == s[..i];
  }

  lemma PartialDone(t: seq<Value>, s: seq<Value>, mode: Mode)
    ensures var p := Partial(t, s, |s|, mode);
      Extended(Arr(t), Arr(s), mode).elems ==
        if mode != Deep then p
        else if |p| > |s| then p[..|s|]
        else p + seq(|s| - |p|, _ => Undef)
  {
    assert s[..|s|] == s;
  }

  /** `extend` on an array source: the loop over its indices, then
      `target.length = source.length` in deep mode. */
  method ExtendElems(target: Value, source: Value, mode: Mode) returns (r: Value)
    requires target.Arr? && source.Arr?
    ensures r == Extended(target, source, mode)
    decreases source, 0
  {
    var t, s := target.elems, source.elems;
    var acc := t;
    var i := 0;
    assert s[..0] == [];
    while i < |s|
      invariant 0 <= i <= |s|
      invariant acc == Partial(t, s, i, mode)
    {
      PartialStep(t, s, i, mode);
      if s[i] != Undef {
        var slot := AssignSlot(At(acc, i), s[i], mode);
        if i < |acc| {
          acc := acc[i := slot];
        } else {
          acc := acc + seq(i - |acc|, _ => Undef) + [slot];
        }
      }
      i := i + 1;
    }
    PartialDone(t, s, mode);
    if mode == Deep {
      if |acc| > |s| {
        acc := acc[..|s|];
      } else {
        acc := acc + seq(|s| - |acc|, _ => Undef);
      }
    }
    r := Arr(acc);
  }

  /** A record that `merge` mutates in place: the first non-mode argument. */
  class Record {
    var fields: map<string, Value>

    constructor (fields: map<string, Value>)
      ensures this.fields == fields
    {
      this.fields := fields;
    }

    /** `extend(this, source, mode)` at the top level. */
    method Extend(source: Value, mode: Mode)
      modifies this
      ensures fields == ExtendRecord(old(fields), source, mode)
    {
      var r := ExtendFields(Obj(fields), Obj(Enumerate(source)), mode);
      fields := r.fields;
      if source.Arr? && mode == Deep {
        fields := fields["length" := Num(|source.elems|)];
      }
    }
  }

  /** The fold one source further. */
  lemma MergeAllStep(fields: map<string, Value>, sources: seq<Value>, i: nat, mode: Mode)
    requires i < |sources|
    ensures MergeAll(fields, sources[..i + 1], mode) == ExtendRecord(MergeAll(fields, sources[..i], mode), sources[i], mode)
  {
    assert sources[..i + 1][..i] == sources[..i];
  }

  /** `merge(mode, target, ...sources)`: sources applied left to right into
      `target`, which is returned. */
  method Merge(mode: Mode, target: Record, sources: seq<Value>) returns (r: Record)
    modifies target
    ensures r == target
    ensures target.fields == MergeAll(old(target.fields), sources, mode)
  {
    var i := 0;
    while i < |sources|
      invariant 0 <= i <= |sources|
      invariant target.fields == MergeAll(old(target.fields), sources[..i], mode)
    {
      MergeAllStep(old(target.fields), sources, i, mode);
      target.Extend(sources[i], mode);
      i := i + 1;
    }
    assert sources[..i] == sources;
    r := target;
  }

  /** `merge(firstObj, ...objs)` as called: a first argument that is a mode
      is taken off and the next argument becomes the target; otherwise the
      first argument is the target and the mode is deep. The merged target
      is returned. */
  method MergeCall(first: Value, rest: seq<Value>) returns (r: Value)
    requires ModeOf(first).None? ==> first.Obj?
    requires ModeOf(first).Some? ==> rest != [] && rest[0].Obj?
    ensures ModeOf(first).None? ==> r == Obj(MergeAll(first.fields, rest, Deep))
    ensures ModeOf(first).Some? ==> r == Obj(MergeAll(rest[0].fields, rest[1..], ModeOf(first).value))
  {
    var mode, target, sources;
    var given := ModeOf(first);
    if given.Some? {
      mode, target, sources := given.value, rest[0], rest[1..];
    } else {
      mode, target, sources := Deep, first, rest;
    }
    var record := new Record(target.fields);
    record := Merge(mode, record, sources);
    r := Obj(record.fields);
  }

  /** `promiseData`: an array of results is folded, in list order, into a
      fresh record by deep merges; anything else is returned as it is. */
  method PromiseData(source: Value) returns (data: Value)
    ensures source.Arr? ==> data == Obj(MergeAll(map[], source.elems, Deep))
    ensures !source.Arr? ==> data == source
  {
    if source.Arr? {
      var results := source.elems;
      var acc := new Record(map[]);
      var i := 0;
      while i < |results|
        invariant 0 <= i <= |results|
        invariant fresh(acc)
        invariant acc.fields == MergeAll(map[], results[..i], Deep)
      {
        MergeAllStep(map[], results, i, Deep);
        assert MergeAll(acc.fields, [results[i]], Deep) == ExtendRecord(acc.fields, results[i], Deep) by {
          assert [results[i]][..0] == [];
        }
        acc := Merge(Deep, acc, [results[i]]);
        i := i + 1;
      }
      assert results[..i] == results;
      data := Obj(acc.fields);
    } else {
      data := source;
    }
  }
}
