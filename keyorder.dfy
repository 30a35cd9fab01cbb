/**
 * The order `sorted` uses on grouping keys: Python compares strings
 * lexicographically by code point (a proper prefix is smaller) and tuples of
 * strings lexicographically element by element.  A one-column key is a plain
 * string in the source; it is modelled as a one-element tuple, which orders
 * the same way.
 */
module KeyOrder {

  /** `a < b` on Python strings. */
  predicate StrLess(a: string, b: string) {
    if a == [] then b != []
    else if b == [] then false
    else a[0] < b[0] || (a[0] == b[0] && StrLess(a[1..], b[1..]))
  }

  lemma {:induction false} StrLessIrreflexive(a: string)
    ensures !StrLess(a, a)
  {
    if a != [] {
      StrLessIrreflexive(a[1..]);
    }
  }

  lemma {:induction false} StrLessTransitive(a: string, b: string, c: string)
    requires StrLess(a, b) && StrLess(b, c)
    ensures StrLess(a, c)
  {
    if a != [] && a[0] == b[0] && b[0] == c[0] {
      StrLessTransitive(a[1..], b[1..], c[1..]);
    }
  }

  /** Any two different strings are ordered one way or the other. */
  lemma {:induction false} StrLessTotal(a: string, b: string)
    requires a != b
    ensures StrLess(a, b) || StrLess(b, a)
  {
    if a != [] && b != [] && a[0] == b[0] {
      assert a == [a[0]] + a[1..] && b == [b[0]] + b[1..];
      StrLessTotal(a[1..], b[1..]);
    }
  }

  /** `a < b` on tuples of strings of the same length. */
  predicate TupleLess(a: seq<string>, b: seq<string>) {
    if a == [] then b != []
    else if b == [] then false
    else StrLess(a[0], b[0]) || (a[0] == b[0] && TupleLess(a[1..], b[1..]))
  }

  lemma {:induction false} TupleLessIrreflexive(a: seq<string>)
    ensures !TupleLess(a, a)
  {
    if a != [] {
      StrLessIrreflexive(a[0]);
      TupleLessIrreflexive(a[1..]);
    }
  }

  lemma {:induction false} TupleLessTransitive(a: seq<string>, b: seq<string>, c: seq<string>)
    requires TupleLess(a, b) && TupleLess(b, c)
    ensures TupleLess(a, c)
  {
    if a != [] && b != [] && c != [] {
      if StrLess(a[0], b[0]) && StrLess(b[0], c[0]) {
        StrLessTransitive(a[0], b[0], c[0]);
      } else if a[0] == b[0] && b[0] == c[0] {
        TupleLessTransitive(a[1..], b[1..], c[1..]);
      }
    }
  }

  lemma {:induction false} TupleLessTotal(a: seq<string>, b: seq<string>)
    requires a != b
    ensures TupleLess(a, b) || TupleLess(b, a)
  {
    if a != [] && b != [] {
      if a[0] == b[0] {
        assert a == [a[0]] + a[1..] && b == [b[0]] + b[1..];
        TupleLessTotal(a[1..], b[1..]);
      } else {
        StrLessTotal(a[0], b[0]);
      }
    }
  }

  lemma TupleLessAsymmetric(a: seq<string>, b: seq<string>)
    requires TupleLess(a, b)
    ensures !TupleLess(b, a)
  {
    if TupleLess(b, a) {
      TupleLessTransitive(a, b, a);
      TupleLessIrreflexive(a);
    }
  }

  /** `a <= b`, as the negation of `b < a`, composes with `<` on either side. */
  lemma TupleLessEqTransitive(a: seq<string>, b: seq<string>, c: seq<string>)
    requires !TupleLess(b, a) && !TupleLess(c, b)
    ensures !TupleLess(c, a)
  {
    if a != b && b != c {
      TupleLessTotal(a, b);
      TupleLessTotal(b, c);
      TupleLessTransitive(a, b, c);
      TupleLessIrreflexive(a);
      if TupleLess(c, a) {
        TupleLessTransitive(c, a, b);
      }
    }
  }

  lemma TupleLessThenLessEq(a: seq<string>, b: seq<string>, c: seq<string>)
    requires TupleLess(a, b) && !TupleLess(c, b)
    ensures TupleLess(a, c)
  {
    if b != c {
      TupleLessTotal(b, c);
      TupleLessTransitive(a, b, c);
    }
  }
}
