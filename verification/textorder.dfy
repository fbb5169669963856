/**
  Lexicographic order of strings by character code, the order the list view
  relies on when it compares `time` strings. For zero-padded "HH:MM" strings
  it agrees with `localeCompare`: both strings carry ':' at the same place, so
  only digits are ever compared with each other.
*/
module TextOrder {

  /** `a` sorts before or equal to `b`. */
  predicate Precedes(a: string, b: string)
    decreases |a|
  {
    if |a| == 0 then true
    else if |b| == 0 then false
    else if a[0] != b[0] then a[0] < b[0]
    else Precedes(a[1..], b[1..])
  }

  lemma {:induction false} PrecedesReflexive(a: string)
    ensures Precedes(a, a)
    decreases |a|
  {
    if |a| > 0 {
      PrecedesReflexive(a[1..]);
    }
  }

  lemma {:induction false} PrecedesTotal(a: string, b: string)
    ensures Precedes(a, b) || Precedes(b, a)
    decreases |a|
  {
    if |a| > 0 && |b| > 0 && a[0] == b[0] {
      PrecedesTotal(a[1..], b[1..]);
    }
  }

  lemma {:induction false} PrecedesTransitive(a: string, b: string, c: string)
    requires Precedes(a, b) && Precedes(b, c)
    ensures Precedes(a, c)
    decreases |a|
  {
    if |a| > 0 && |b| > 0 && |c| > 0 && a[0] == b[0] && b[0] == c[0] {
      PrecedesTransitive(a[1..], b[1..], c[1..]);
    }
  }

  lemma {:induction false} PrecedesAntisymmetric(a: string, b: string)
    requires Precedes(a, b) && Precedes(b, a)
    ensures a == b
    decreases |a|
  {
    if |a| > 0 && |b| > 0 {
      PrecedesAntisymmetric(a[1..], b[1..]);
      assert a == [a[0]] + a[1..];
      assert b == [b[0]] + b[1..];
    }
  }

  /** Comparison decides at the first character, unless the two first characters agree. */
  lemma PrecedesCons(c: char, x: string, d: char, y: string)
    ensures Precedes([c] + x, [d] + y) == (if c != d then c < d else Precedes(x, y))
  {
    assert ([c] + x)[1..] == x;
    assert ([d] + y)[1..] == y;
  }
}
