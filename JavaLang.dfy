/** The few pieces of java.lang the configuration classes lean on: null as an
    Option, thrown exceptions as Result/Outcome values, and the natural order of
    strings (String.compareTo), which orders properties by name and toolboxes by
    scope. */
module JavaLang {

  /** A Java reference that may be null: None stands for null. */
  datatype Option<+T> = None | Some(value: T)

  /** A call that returns a value or throws. */
  datatype Result<+T, +E> = Ok(value: T) | Err(error: E)

  /** A void call that returns normally or throws. */
  datatype Outcome<+E> = Pass | Fail(error: E)

  /** String.compareTo: the difference of the first pair of characters that
      differ, or else the difference of the lengths. */
  function Compare(a: string, b: string): int
  {
    if a == [] || b == [] then |a| - |b|
    else if a[0] != b[0] then a[0] as int - b[0] as int
    else Compare(a[1..], b[1..])
  }

  /** `a` comes strictly before `b` in the natural order of strings. */
  predicate Less(a: string, b: string)
  {
    Compare(a, b) < 0
  }

  /** Swapping the arguments negates the comparison. */
  lemma {:induction false} CompareAntisymmetric(a: string, b: string)
    ensures Compare(a, b) == -Compare(b, a)
  {
    if a != [] && b != [] && a[0] == b[0] {
      CompareAntisymmetric(a[1..], b[1..]);
    }
  }

  /** The comparison is zero exactly for equal strings. */
  lemma {:induction false} CompareZero(a: string, b: string)
    ensures Compare(a, b) == 0 <==> a == b
  {
    if a != [] && b != [] && a[0] == b[0] {
      CompareZero(a[1..], b[1..]);
      assert a == [a[0]] + a[1..];
      assert b == [b[0]] + b[1..];
    } else if a != [] && b != [] {
      assert a[0] != b[0];
    }
  }

  lemma LessIrreflexive(a: string)
    ensures !Less(a, a)
  {
    CompareZero(a, a);
  }

  /** Two different strings are ordered one way or the other. */
  lemma LessTotal(a: string, b: string)
    requires a != b
    ensures Less(a, b) || Less(b, a)
  {
    CompareZero(a, b);
    CompareAntisymmetric(a, b);
  }

  lemma LessAsymmetric(a: string, b: string)
    requires Less(a, b)
    ensures !Less(b, a)
  {
    CompareAntisymmetric(a, b);
  }

  lemma {:induction false} LessTransitive(a: string, b: string, c: string)
    requires Less(a, b) && Less(b, c)
    ensures Less(a, c)
  {
    if a != [] && b != [] && c != [] && a[0] == b[0] && b[0] == c[0] {
      LessTransitive(a[1..], b[1..], c[1..]);
    }
  }
}
