/** The dynamically typed values that flow through the ORM: instance ids,
    field values and `class Meta` options. Python's truthiness and `str()`
    are spelled out because the source branches on both. */
module Values {
  import opened Strings

  /** `None`, a string, an integer or a boolean. */
  datatype Value = Nil | Str(s: string) | Int(i: int) | Flag(b: bool)

  /** Python truthiness: `None`, `''`, `0` and `False` are false. */
  predicate Truthy(v: Value) {
    match v
    case Nil => false
    case Str(s) => |s| > 0
    case Int(i) => i != 0
    case Flag(b) => b
  }

  /** `str(v)`, which is also what `'{0}'.format(v)` inserts. */
  function Format(v: Value): string {
    match v
    case Nil => "None"
    case Str(s) => s
    case Int(i) => if i < 0 then "-" + Decimal(-i) else Decimal(i)
    case Flag(b) => if b then "True" else "False"
  }

  /** A rendered integer holds only a sign and digits, so no `.` and no `:`. */
  lemma FormatIntPlain(i: int)
    ensures '.' !in Format(Int(i))
    ensures ':' !in Format(Int(i))
  {
    var d := if i < 0 then Decimal(-i) else Decimal(i);
    assert forall k :: 0 <= k < |d| ==> IsDigit(d[k]);
  }

  /** Distinct integers render differently (the sign and digits identify them). */
  lemma FormatIntInjective(a: int, b: int)
    requires Format(Int(a)) == Format(Int(b))
    ensures a == b
  {
    var fa, fb := Format(Int(a)), Format(Int(b));
    if a < 0 && b < 0 {
      assert fa[1..] == Decimal(-a);
      assert fb[1..] == Decimal(-b);
      DecimalInjective(-a, -b);
    } else if a >= 0 && b >= 0 {
      DecimalInjective(a, b);
    }
  }
}
