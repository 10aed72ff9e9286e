/** The dynamically typed values a flow passes between its nodes, and the
    operations the condition language performs on them. */
module Values {

  datatype Option<+T> = None | Some(value: T)

  /** A decoded JSON value, plus `Int`: the machine integer that `.length`
      yields, which the language keeps apart from a JSON number (`Num`). */
  datatype Value =
    | Nil
    | Bool(b: bool)
    | Str(s: string)
    | Num(n: real)
    | Int(i: int)
    | List(items: seq<Value>)
    | Map(fields: map<string, Value>)

  datatype CmpOp = Eq | Ne | Gt | Lt | Ge | Le

  predicate Truthy(v: Value)
  {
    match v
    case Nil => false
    case Bool(b) => b
    case Str(s) => s != ""
    case Num(n) => n != 0.0
    case _ => true
  }

  function LengthOf(v: Value): nat
  {
    match v
    case Str(s) => |s|
    case List(items) => |items|
    case Map(fields) => |fields|
    case _ => 0
  }

  function Field(v: Value, name: string): Value
  {
    if name == "length" then Int(LengthOf(v))
    else if v.Map? && name in v.fields then v.fields[name]
    else Nil
  }

  function ToFloat(v: Value): Option<real>
  {
    match v
    case Num(n) => Some(n)
    case Int(i) => Some(i as real)
    case Bool(b) => Some(if b then 1.0 else 0.0)
    case _ => None
  }

  predicate DeepEqual(a: Value, b: Value)
  {
    if a.Nil? || b.Nil? then a.Nil? && b.Nil?
    else if ToFloat(a).Some? && ToFloat(b).Some? then ToFloat(a).value == ToFloat(b).value
    else a == b
  }

  /** Byte-wise lexicographic order on strings. */
  predicate StringLess(a: string, b: string)
  {
    if b == "" then false
    else if a == "" then true
    else a[0] < b[0] || (a[0] == b[0] && StringLess(a[1..], b[1..]))
  }

  predicate OrderFloat(op: CmpOp, a: real, b: real)
  {
    match op
    case Gt => a > b
    case Lt => a < b
    case Ge => a >= b
    case Le => a <= b
    case _ => false
  }

  predicate OrderString(op: CmpOp, a: string, b: string)
  {
    match op
    case Gt => StringLess(b, a)
    case Lt => StringLess(a, b)
    case Ge => !StringLess(a, b)
    case Le => !StringLess(b, a)
    case _ => false
  }

  /** The result of a comparison; `None` when the two values cannot be ordered. */
  function Compare(op: CmpOp, a: Value, b: Value): Option<bool>
  {
    if op.Eq? then Some(DeepEqual(a, b))
    else if op.Ne? then Some(!DeepEqual(a, b))
    else if ToFloat(a).Some? && ToFloat(b).Some? then
      Some(OrderFloat(op, ToFloat(a).value, ToFloat(b).value))
    else if a.Str? && b.Str? then Some(OrderString(op, a.s, b.s))
    else None
  }

  // ---- properties -------------------------------------------------------

  lemma {:induction false} StringLessTrichotomy(a: string, b: string)
    ensures StringLess(a, b) || StringLess(b, a) || a == b
    ensures !(StringLess(a, b) && StringLess(b, a))
    ensures !StringLess(a, a)
  {
    if a != "" {
      StringLessTrichotomy(a[1..], a[1..]);
      if b != "" {
        StringLessTrichotomy(a[1..], b[1..]);
        if a[0] == b[0] && a[1..] == b[1..] {
          assert a == [a[0]] + a[1..] == [b[0]] + b[1..] == b;
        }
      }
    }
  }

  lemma {:induction false} StringLessTransitive(a: string, b: string, c: string)
    requires StringLess(a, b) && StringLess(b, c)
    ensures StringLess(a, c)
  {
    if a != "" && a[0] == b[0] == c[0] {
      StringLessTransitive(a[1..], b[1..], c[1..]);
    }
  }

  lemma PrefixesStartAlike(a: string, b: string)
    requires a != "" && b != ""
    ensures forall i :: 0 < i <= |a| && i <= |b| && a[..i] == b[..i] ==> a[0] == b[0]
  {
    assert forall i :: 0 < i <= |a| ==> a[..i][0] == a[0];
    assert forall i :: 0 < i <= |b| ==> b[..i][0] == b[0];
  }

  /** Byte order outright: the first character in which two strings differ
      decides, and a proper prefix is below what it is a prefix of. */
  lemma {:induction false} StringLessExactly(a: string, b: string)
    ensures StringLess(a, b) <==>
            exists i :: 0 <= i <= |a| && i <= |b| && a[..i] == b[..i]
                        && if i == |a| then i < |b| else i < |b| && a[i] < b[i]
  {
    if a != "" && b != "" && a[0] == b[0] {
      var c, d := a[1..], b[1..];
      StringLessExactly(c, d);
      if StringLess(c, d) {
        var i :| 0 <= i <= |c| && i <= |d| && c[..i] == d[..i] && if i == |c| then i < |d| else i < |d| && c[i] < d[i];
        assert a[..i + 1] == [a[0]] + c[..i] && b[..i + 1] == [b[0]] + d[..i];
      }
      if i :| 0 <= i <= |a| && i <= |b| && a[..i] == b[..i] && if i == |a| then i < |b| else i < |b| && a[i] < b[i] {
        assert i > 0;
        assert c[..i - 1] == a[..i][1..] && d[..i - 1] == b[..i][1..];
      }
    } else if b != "" {
      assert a[..0] == b[..0];
      if a != "" {
        PrefixesStartAlike(a, b);
      }
    }
  }

  /** The six operators agree with one another: they are defined on the same
      pairs, each negated form is the negation, and being neither below nor
      above is being equal. */
  lemma ComparisonsCohere(a: Value, b: Value)
    ensures Compare(Lt, a, b).Some? == Compare(Gt, a, b).Some? == Compare(Le, a, b).Some? == Compare(Ge, a, b).Some?
    ensures Compare(Lt, a, b) == Compare(Gt, b, a) && Compare(Le, a, b) == Compare(Ge, b, a)
    ensures Compare(Lt, a, b).Some? ==>
              Compare(Ge, a, b) == Some(!Compare(Lt, a, b).value)
    ensures Compare(Eq, a, b).Some? && Compare(Ne, a, b) == Some(!Compare(Eq, a, b).value)
    ensures Compare(Lt, a, b).Some? ==>
              (Compare(Eq, a, b).value <==> !Compare(Lt, a, b).value && !Compare(Gt, a, b).value)
  {
    if a.Str? && b.Str? {
      StringLessTrichotomy(a.s, b.s);
    }
  }

  /** Equal values are equally truthy with one exception: a zero length is
      truthy although it equals the number zero and `false`, which are not. */
  lemma EqualValuesEquallyTruthy(a: Value, b: Value)
    requires DeepEqual(a, b)
    ensures Truthy(a) == Truthy(b) <==>
            !(a == Int(0) && !b.Int?) && !(b == Int(0) && !a.Int?)
  {
    assert a.Int? && a.i as real == 0.0 ==> a.i == 0;
    assert b.Int? && b.i as real == 0.0 ==> b.i == 0;
  }
}
