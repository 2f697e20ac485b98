/** What the object merger promises, proved about its model (src/main.js:46-73,
    index.js:19-47). */
module MergerLaws {
  import opened Values
  import opened Merger

  /** What `extend` leaves at one key of a record target. */
  lemma ExtendedField(t: map<string, Value>, s: map<string, Value>, mode: Mode, k: string)
    ensures var r := Extended(Obj(t), Obj(s), mode).fields;
      && (k in r <==> k in t || (k in s && s[k] != Undef))
      && (k in s && s[k] != Undef ==> r[k] == Assign(Lookup(t, k), s[k], mode))
      && ((k !in s || s[k] == Undef) && k in t ==> r[k] == t[k])
  {
    var w := Written(s);
    assert k in w <==> k in s && s[k] != Undef;
  }

  /** In every mode a source value that is undefined (or missing) leaves the
      target's slot as it was, present or absent. */
  lemma UndefinedNeverOverwrites(fields: map<string, Value>, source: Value, mode: Mode, k: string)
    requires Lookup(Enumerate(source), k) == Undef
    requires !(source.Arr? && mode == Deep && k == "length")
    ensures var r := ExtendRecord(fields, source, mode);
      (k in r <==> k in fields) && (k in fields ==> r[k] == fields[k])
  {
  }

  /** Shallow mode: every defined top-level source value replaces the target
      slot wholesale (a nested record is not merged into), and every other
      slot is left alone. */
  lemma ShallowReplacesWholesale(fields: map<string, Value>, source: Value, k: string)
    ensures var r, e := ExtendRecord(fields, source, Shallow), Enumerate(source);
      && (k in e && e[k] != Undef ==> k in r && r[k] == e[k])
      && (k !in e || e[k] == Undef ==> (k in r <==> k in fields) && (k in fields ==> r[k] == fields[k]))
  {
    ExtendedField(fields, Enumerate(source), Shallow, k);
  }

  /** Deep modes, record source value: the slot becomes a record that keeps
      the keys of the old slot the source does not write (none if the old slot
      was not a record) and gains every key the source defines. */
  lemma DeepMergesRecords(prev: Value, incoming: Value, mode: Mode)
    requires mode != Shallow && incoming.Obj?
    ensures var r, kept := Assign(prev, incoming, mode), if prev.Obj? then prev.fields else map[];
      && r.Obj?
      && r.fields.Keys == kept.Keys + Written(incoming.fields)
      && (forall k :: k in kept && k !in Written(incoming.fields) ==> r.fields[k] == kept[k])
  {
  }

  /** Deep mode: after a non-empty array is merged into a slot, the slot is an
      array exactly as long as the source, whatever it held before. */
  lemma DeepArrayTakesSourceLength(prev: Value, incoming: Value)
    requires incoming.Arr? && |incoming.elems| > 0
    ensures var r := Assign(prev, incoming, Deep); r.Arr? && |r.elems| == |incoming.elems|
  {
  }

  /** Deep modes: a non-empty array source value merges into the slot as if
      the slot were first reset to [] whenever it does not hold an array, and
      a record source value as if it were reset to {}. */
  lemma DeepResetsMismatchedSlot(prev: Value, incoming: Value, mode: Mode)
    requires Descends(incoming, mode)
    ensures incoming.Arr? && !prev.Arr? ==> Assign(prev, incoming, mode) == Assign(Arr([]), incoming, mode)
    ensures incoming.Obj? && !prev.Obj? ==> Assign(prev, incoming, mode) == Assign(Obj(map[]), incoming, mode)
  {
  }

  /** 'merge' mode: no truncation; an array slot keeps its length (or grows to
      the last index written) and its elements past the source's end. */
  lemma KeepLengthDoesNotTruncate(prev: Value, incoming: Value)
    requires incoming.Arr? && |incoming.elems| > 0 && prev.Arr?
    ensures var r := Assign(prev, incoming, DeepKeepLength);
      && r.Arr?
      && |r.elems| == Max(|prev.elems|, LastWritten(incoming.elems))
      && forall j :: |incoming.elems| <= j < |prev.elems| ==> r.elems[j] == prev.elems[j]
  {
  }

  /** An empty array is assigned as a leaf in every mode. */
  lemma EmptyArrayIsLeaf(prev: Value, mode: Mode)
    ensures Assign(prev, Arr([]), mode) == Arr([])
  {
  }

  /** A top-level array source in deep mode also sets the record target's
      `length` to the source's length. */
  lemma ArraySourceSetsLength(fields: map<string, Value>, elems: seq<Value>)
    ensures var r := ExtendRecord(fields, Arr(elems), Deep);
      "length" in r && r["length"] == Num(|elems|)
  {
  }

  /** Sources are applied left to right: a defined leaf in the last source
      decides that key of the result. */
  lemma LaterSourceWins(fields: map<string, Value>, sources: seq<Value>, mode: Mode, k: string)
    requires |sources| > 0
    requires var e := Enumerate(sources[|sources| - 1]); k in e && e[k] != Undef && !Descends(e[k], mode)
    ensures var r := MergeAll(fields, sources, mode);
      k in r && r[k] == Enumerate(sources[|sources| - 1])[k]
  {
    var last := sources[|sources| - 1];
    var before := MergeAll(fields, sources[..|sources| - 1], mode);
    ExtendedField(before, Enumerate(last), mode, k);
    if last.Arr? {
      var i :| 0 <= i < |last.elems| && k == IndexKey(i);
      IndexKeyIsNotLength(i);
    }
  }

  /** Merging a record whose values are all functions (compiled actions or
      reducers) adds its entries and overrides clashing keys: map union. */
  lemma MergeOfFunctionsIsUnion(fields: map<string, Value>, incoming: map<string, Value>, mode: Mode)
    requires forall k :: k in incoming ==> incoming[k].Fn?
    ensures ExtendRecord(fields, Obj(incoming), mode) == fields + incoming
  {
    var r := ExtendRecord(fields, Obj(incoming), mode);
    assert Written(incoming) == incoming.Keys;
    assert r.Keys == (fields + incoming).Keys;
    forall k | k in r ensures r[k] == (fields + incoming)[k] {
      ExtendedField(fields, incoming, mode, k);
    }
  }

  /** Merging the same source twice is the same as merging it once. */
  lemma {:induction false} AssignIdempotent(prev: Value, incoming: Value, mode: Mode)
    ensures Assign(Assign(prev, incoming, mode), incoming, mode) == Assign(prev, incoming, mode)
    decreases incoming, 1
  {
    if Descends(incoming, mode) {
      if incoming.Obj? {
        ExtendedIdempotent(if prev.Obj? then prev else Obj(map[]), incoming, mode);
      } else {
        ExtendedIdempotent(if prev.Arr? then prev else Arr([]), incoming, mode);
      }
    }
  }

  lemma {:induction false} ExtendedIdempotent(target: Value, source: Value, mode: Mode)
    requires SameKind(target, source)
    ensures Extended(Extended(target, source, mode), source, mode) == Extended(target, source, mode)
    decreases source, 0
  {
    var r := Extended(target, source, mode);
    var r2 := Extended(r, source, mode);
    if source.Obj? {
      var t, s, w := target.fields, source.fields, Written(source.fields);
      assert r2.fields.Keys == r.fields.Keys;
      forall k | k in r.fields ensures r2.fields[k] == r.fields[k] {
        if k in w {
          AssignIdempotent(Lookup(t, k), s[k], mode);
        }
      }
      assert r2.fields == r.fields;
    } else {
      var t, s := target.elems, source.elems;
      assert |r2.elems| == |r.elems|;
      forall i | 0 <= i < |r.elems| ensures r2.elems[i] == r.elems[i] {
        if i < |s| && s[i] != Undef {
          AssignIdempotent(At(t, i), s[i], mode);
        }
      }
      assert r2.elems == r.elems;
    }
  }

  /** A key the source does not have passes through `extend` untouched. */
  lemma ExtendedUntouchedKey(t: map<string, Value>, s: map<string, Value>, mode: Mode, k: string, v: Value)
    requires k !in s
    ensures Extended(Obj(t[k := v]), Obj(s), mode).fields == Extended(Obj(t), Obj(s), mode).fields[k := v]
  {
    var lhs := Extended(Obj(t[k := v]), Obj(s), mode).fields;
    var rhs := Extended(Obj(t), Obj(s), mode).fields[k := v];
    forall j ensures (j in lhs <==> j in rhs) && (j in lhs ==> lhs[j] == rhs[j]) {
      ExtendedField(t[k := v], s, mode, j);
      ExtendedField(t, s, mode, j);
    }
    assert lhs == rhs;
  }

  lemma ExtendRecordIdempotent(fields: map<string, Value>, source: Value, mode: Mode)
    ensures ExtendRecord(ExtendRecord(fields, source, mode), source, mode) == ExtendRecord(fields, source, mode)
  {
    var e := Enumerate(source);
    var x := Extended(Obj(fields), Obj(e), mode);
    ExtendedIdempotent(Obj(fields), Obj(e), mode);
    assert Obj(x.fields) == x;
    if source.Arr? && mode == Deep {
      assert "length" !in e by {
        if "length" in e {
          var i :| 0 <= i < |source.elems| && "length" == IndexKey(i);
          IndexKeyIsNotLength(i);
        }
      }
      ExtendedUntouchedKey(x.fields, e, mode, "length", Num(|source.elems|));
    }
  }

  /** No record inside `v` has an undefined field. */
  predicate FieldsDefined(v: Value)
    decreases v
  {
    match v
    case Obj(f) => forall k :: k in f ==> f[k] != Undef && FieldsDefined(f[k])
    case Arr(e) => forall i :: 0 <= i < |e| ==> FieldsDefined(e[i])
    case _ => true
  }

  /** A deep merge into an empty slot copies the source exactly, provided no
      record in it has an undefined field (those are dropped). */
  lemma {:induction false} CopyIntoEmpty(v: Value)
    requires v != Undef && FieldsDefined(v)
    ensures Assign(Undef, v, Deep) == v
    decreases v
  {
    match v
    case Obj(f) =>
      var r := Assign(Undef, v, Deep);
      assert r == Extended(Obj(map[]), v, Deep);
      forall k | k in f ensures k in r.fields && r.fields[k] == f[k] {
        ExtendedField(map[], f, Deep, k);
        CopyIntoEmpty(f[k]);
      }
      forall k | k in r.fields ensures k in f {
        ExtendedField(map[], f, Deep, k);
      }
      assert r.fields == f;
    case Arr(e) =>
      if |e| > 0 {
        var r := Assign(Undef, v, Deep);
        assert r == Extended(Arr([]), v, Deep);
        assert |r.elems| == |e|;
        forall i | 0 <= i < |e| ensures r.elems[i] == e[i] {
          if e[i] != Undef {
            CopyIntoEmpty(e[i]);
          }
        }
        assert r.elems == e;
      }
    case _ =>
  }

  /** Deep-merging a record with no undefined fields into an empty record
      reproduces it. */
  lemma CopyRecordIntoEmpty(f: map<string, Value>)
    requires FieldsDefined(Obj(f))
    ensures ExtendRecord(map[], Obj(f), Deep) == f
  {
    CopyIntoEmpty(Obj(f));
  }
}
