/** Lexicographic comparison of sequences, as Rust's derived `Ord` compares
    slices, `Vec`s and `str`s: the first position where the two differ decides,
    and a proper prefix comes first. */
module Lex {

  /** `lt` is a strict total order: irreflexive, transitive and trichotomous. */
  ghost predicate StrictTotal<T(!new)>(lt: (T, T) -> bool) {
    && (forall x :: !lt(x, x))
    && (forall x, y, z :: lt(x, y) && lt(y, z) ==> lt(x, z))
    && (forall x, y :: x == y || lt(x, y) || lt(y, x))
  }

  /** `a` sorts strictly before `b` when both are compared element by element. */
  predicate LexLt<T(==)>(a: seq<T>, b: seq<T>, lt: (T, T) -> bool) {
    if |a| == 0 then |b| > 0
    else if |b| == 0 then false
    else if a[0] == b[0] then LexLt(a[1..], b[1..], lt)
    else lt(a[0], b[0])
  }

  lemma {:induction false} LexIrreflexive<T(!new)>(a: seq<T>, lt: (T, T) -> bool)
    requires StrictTotal(lt)
    ensures !LexLt(a, a, lt)
  {
    if |a| > 0 {
      LexIrreflexive(a[1..], lt);
    }
  }

  lemma {:induction false} LexTransitive<T(!new)>(a: seq<T>, b: seq<T>, c: seq<T>, lt: (T, T) -> bool)
    requires StrictTotal(lt)
    requires LexLt(a, b, lt) && LexLt(b, c, lt)
    ensures LexLt(a, c, lt)
  {
    if |a| > 0 && a[0] == b[0] && b[0] == c[0] {
      LexTransitive(a[1..], b[1..], c[1..], lt);
    }
  }

  /** Two sequences are equal or one sorts before the other. */
  lemma {:induction false} LexTrichotomy<T(!new)>(a: seq<T>, b: seq<T>, lt: (T, T) -> bool)
    requires StrictTotal(lt)
    ensures a == b || LexLt(a, b, lt) || LexLt(b, a, lt)
  {
    if |a| > 0 && |b| > 0 && a[0] == b[0] {
      LexTrichotomy(a[1..], b[1..], lt);
      if a[1..] == b[1..] {
        assert a == [a[0]] + a[1..] && b == [b[0]] + b[1..];
      }
    }
  }

  /** Past a common prefix of length `n`, sequences in order have their
      elements at `n` in order. */
  lemma {:induction false} LexAfterPrefix<T(!new)>(a: seq<T>, b: seq<T>, n: nat, lt: (T, T) -> bool)
    requires n < |a| && n < |b| && a[..n] == b[..n]
    requires LexLt(a, b, lt)
    ensures a[n] == b[n] || lt(a[n], b[n])
  {
    if n > 0 {
      assert a[0] == a[..n][0] == b[..n][0] == b[0];
      assert a[1..][..n - 1] == a[..n][1..];
      assert b[1..][..n - 1] == b[..n][1..];
      LexAfterPrefix(a[1..], b[1..], n - 1, lt);
    }
  }

  /** Rust compares `str` byte by byte, which for UTF-8 is code-point order. */
  predicate CharLt(x: char, y: char) {
    x < y
  }

  lemma CharLtStrictTotal()
    ensures StrictTotal(CharLt)
  {
  }

  predicate StrLt(a: string, b: string) {
    LexLt(a, b, CharLt)
  }
}
