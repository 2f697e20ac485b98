/** JSON-like values as the helper layer sees them: records, arrays, scalars
    and opaque functions. Runtime type probing (isPlainObject, isArray,
    isFunction, typeof ... == 'string') becomes a constructor test. */
module Values {

  datatype Option<+T> = None | Some(value: T)

  /** The outcome of a call that may throw: JavaScript throws a TypeError when
      a property is read from null or undefined. */
  datatype Result<+T> = Ok(value: T) | Thrown

  /** A JavaScript value. `Fn(id)` is a function whose body is not known to
      the model (a service, a custom merge, a callback). An array hole and an
      element that is `undefined` are both `Undef`. */
  datatype Value =
    | Undef
    | Null
    | Bool(b: bool)
    | Num(n: int)
    | Str(s: string)
    | Fn(id: nat)
    | Obj(fields: map<string, Value>)
    | Arr(elems: seq<Value>)

  /** JavaScript truthiness, used by every `a || b` in the source. */
  predicate Truthy(v: Value) {
    match v
    case Undef => false
    case Null => false
    case Bool(b) => b
    case Num(n) => n != 0
    case Str(s) => s != ""
    case _ => true
  }

  /** `v[key]` for a value that is not null or undefined: a record gives its
      own field (or undefined), anything else has no such property. */
  function Get(v: Value, key: string): (r: Value)
    ensures v.Obj? && key in v.fields ==> r == v.fields[key]
    ensures !v.Obj? || key !in v.fields ==> r == Undef
  {
    if v.Obj? && key in v.fields then v.fields[key] else Undef
  }

  /** `m[key]` on a record, `undefined` when the key is absent. */
  function Lookup(m: map<string, Value>, key: string): Value {
    if key in m then m[key] else Undef
  }

  function DigitChar(d: nat): char
    requires d < 10
  {
    "0123456789"[d]
  }

  function DigitValue(c: char): nat {
    if '0' <= c <= '9' then (c as int - '0' as int) as nat else 0
  }

  /** The property key JavaScript uses for array index `i`: its decimal form. */
  function IndexKey(i: nat): (s: string)
    ensures |s| > 0
    ensures forall j :: 0 <= j < |s| ==> '0' <= s[j] <= '9'
  {
    if i < 10 then [DigitChar(i)] else IndexKey(i / 10) + [DigitChar(i % 10)]
  }

  function ParseDecimal(s: string): nat {
    if s == [] then 0 else ParseDecimal(s[..|s| - 1]) * 10 + DigitValue(s[|s| - 1])
  }

  lemma {:induction false} ParseIndexKey(i: nat)
    ensures ParseDecimal(IndexKey(i)) == i
  {
    if i >= 10 {
      ParseIndexKey(i / 10);
      var s := IndexKey(i);
      assert s[..|s| - 1] == IndexKey(i / 10);
    }
  }

  /** Different indices are different property keys, so the keys of an
      enumerated array never collide. */
  lemma IndexKeyInjective()
    ensures forall i: nat, j: nat :: IndexKey(i) == IndexKey(j) ==> i == j
  {
    forall i: nat, j: nat | IndexKey(i) == IndexKey(j) ensures i == j {
      ParseIndexKey(i);
      ParseIndexKey(j);
    }
  }

  /** No index key is the word "length". */
  lemma IndexKeyIsNotLength(i: nat)
    ensures IndexKey(i) != "length"
  {
    assert "length"[0] == 'l';
  }

  /** A sequence keyed by its indices' decimal forms. */
  function Indexed(e: seq<Value>): (m: map<string, Value>)
    ensures forall i :: 0 <= i < |e| ==> IndexKey(i) in m && m[IndexKey(i)] == e[i]
    ensures forall k :: k in m ==> exists i :: 0 <= i < |e| && k == IndexKey(i)
  {
    IndexKeyInjective();
    map i | 0 <= i < |e| :: IndexKey(i) := e[i]
  }

  /** The (key, value) pairs a `for (var key in v)` loop visits: a record's own
      fields, an array's indices, a string's characters; nothing for the
      other values. */
  function Enumerate(v: Value): (m: map<string, Value>)
    ensures v.Obj? ==> m == v.fields
    ensures v.Arr? ==> forall i :: 0 <= i < |v.elems| ==> IndexKey(i) in m && m[IndexKey(i)] == v.elems[i]
    ensures v.Arr? ==> forall k :: k in m ==> exists i :: 0 <= i < |v.elems| && k == IndexKey(i)
    ensures v.Str? ==> forall i :: 0 <= i < |v.s| ==> IndexKey(i) in m && m[IndexKey(i)] == Str([v.s[i]])
    ensures v.Str? ==> forall k :: k in m ==> exists i :: 0 <= i < |v.s| && k == IndexKey(i)
    ensures !v.Obj? && !v.Arr? && !v.Str? ==> m == map[]
  {
    match v
    case Obj(f) => f
    case Arr(e) => Indexed(e)
    case Str(s) => Indexed(seq(|s|, i requires 0 <= i < |s| => Str([s[i]])))
    case _ => map[]
  }
}
