/** The persistent-map projector `toMap` and its inner `setMap`
    (src/main.js:234-247, index.js:203-216), and the reverse projection the
    reducer uses before calling a custom merge (`state.toJSON()`). */
module Projector {
  import opened Values

  /** A reducer state: a persistent map whose values are again states, or a
      plain value kept by reference (arrays, scalars, functions). */
  datatype Persistent = PMap(entries: map<string, Persistent>) | Plain(v: Value)

  /** The state a single value projects to: a plain record becomes a map
      (recursively), anything else is kept as it is. */
  function Project(v: Value): (p: Persistent)
    ensures !v.Obj? ==> p == Plain(v)
    ensures v.Obj? ==> p.PMap? && p.entries.Keys == v.fields.Keys
  {
    match v
    case Obj(f) => PMap(map k | k in f :: Project(f[k]))
    case _ => Plain(v)
  }

  /** `toMap(json)`: the keys a for...in loop visits, each projected. */
  function ToMap(json: Value): (p: Persistent)
    ensures p.PMap? && p.entries.Keys == Enumerate(json).Keys
    ensures forall k :: k in p.entries ==> p.entries[k] == Project(Enumerate(json)[k])
  {
    PMap(map k | k in Enumerate(json) :: Project(Enumerate(json)[k]))
  }

  /** `state.toJSON()`: maps back to plain records, all the way down. */
  function ToPlain(p: Persistent): Value {
    match p
    case PMap(e) => Obj(map k | k in e :: ToPlain(e[k]))
    case Plain(v) => v
  }

  /** `setMap(source, {})` on the enumerated keys of a value: the loop that
      fills the fresh target, recursing into every plain-record field. */
  method SetMap(source: map<string, Value>) returns (target: map<string, Persistent>)
    ensures target == Project(Obj(source)).entries
    decreases Obj(source)
  {
    target := map[];
    var todo := source.Keys;
    while todo != {}
      invariant todo <= source.Keys
      invariant target.Keys == source.Keys - todo
      invariant forall k :: k in target ==> target[k] == Project(source[k])
      decreases todo
    {
      var key :| key in todo;
      var value := source[key];
      if value.Obj? {
        assert value == Obj(value.fields);
        var nested := SetMap(value.fields);
        target := target[key := PMap(nested)];
      } else {
        target := target[key := Plain(value)];
      }
      todo := todo - {key};
    }
  }

  /** `toMap(json)` by the loop. */
  method ToMapOf(json: Value) returns (p: Persistent)
    ensures p == ToMap(json)
  {
    var entries := SetMap(Enumerate(json));
    p := PMap(entries);
  }

  /** No plain record is left inside a state: every one became a map. */
  predicate RecordFree(p: Persistent) {
    match p
    case PMap(e) => forall k :: k in e ==> RecordFree(e[k])
    case Plain(v) => !v.Obj?
  }

  /** Projecting and reading back gives the value again. */
  lemma {:induction false} ToPlainProject(v: Value)
    ensures ToPlain(Project(v)) == v
    decreases v
  {
    match v
    case Obj(f) =>
      var r := ToPlain(Project(v));
      forall k | k in f ensures k in r.fields && r.fields[k] == f[k] {
        ToPlainProject(f[k]);
      }
      assert r.fields == f;
    case _ =>
  }

  /** `toMap` of a record, read back by `toJSON`, is that record. */
  lemma ToMapRoundTrip(f: map<string, Value>)
    ensures ToPlain(ToMap(Obj(f))) == Obj(f)
  {
    ToPlainProject(Obj(f));
    assert ToMap(Obj(f)) == Project(Obj(f));
  }

  lemma {:induction false} ProjectRecordFree(v: Value)
    ensures RecordFree(Project(v))
    decreases v
  {
    match v
    case Obj(f) =>
      forall k | k in f ensures RecordFree(Project(v).entries[k]) {
        ProjectRecordFree(f[k]);
      }
    case _ =>
  }

  /** `toMap` converts every nested plain record, at any depth. */
  lemma ToMapRecordFree(json: Value)
    ensures RecordFree(ToMap(json))
  {
    var e := Enumerate(json);
    forall k | k in e ensures RecordFree(Project(e[k])) {
      ProjectRecordFree(e[k]);
    }
  }

  /** Arrays are not converted: an array field is kept by reference. */
  lemma ArrayFieldsUntouched(json: Value, k: string)
    requires json.Obj? && k in json.fields && json.fields[k].Arr?
    ensures ToMap(json).entries[k] == Plain(json.fields[k])
  {
  }
}
