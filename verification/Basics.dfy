/** Small datatypes and facts that several modules need: options, the lesser and the greater of two
    numbers, how often a sequence has an element, powers of two and remainders. */
module Basics {

  datatype Option<T> = None | Some(value: T)

  function Min(a: int, b: int): int { if a < b then a else b }
  function Max(a: int, b: int): int { if a < b then b else a }

  lemma Associative<T>(a: seq<T>, b: seq<T>, c: seq<T>)
    ensures (a + b) + c == a + (b + c)
  {}

  // ---- counting

  ghost function OneIf(b: bool): nat { if b then 1 else 0 }

  /** How often x is in s. */
  ghost function Times<T>(s: seq<T>, x: T): nat {
    if s == [] then 0 else OneIf(s[0] == x) + Times(s[1..], x)
  }

  lemma {:induction false} TimesConcat<T>(a: seq<T>, b: seq<T>, x: T)
    ensures Times(a + b, x) == Times(a, x) + Times(b, x)
  {
    if a == [] {
      assert a + b == b;
    } else {
      TimesConcat(a[1..], b, x);
      assert (a + b)[1..] == a[1..] + b;
    }
  }

  lemma {:induction false} TimesPush<T>(s: seq<T>, last: T, x: T)
    ensures Times(s + [last], x) == Times(s, x) + OneIf(last == x)
  {
    TimesConcat(s, [last], x);
    assert [last][1..] == [];
  }

  // ---- powers and remainders

  ghost function Pow2(k: nat): nat {
    if k == 0 then 1 else 2 * Pow2(k - 1)
  }

  lemma MultipleIsFar(d: int, n: int)
    requires n > 0
    ensures (d >= 1 ==> d * n >= n) && (d <= -1 ==> d * n <= -n)
  {}

  /** The remainder is what the division leaves over. */
  lemma ModUnique(x: int, n: int, q: int, r: int)
    requires 0 <= r < n && x == q * n + r
    ensures x % n == r
  {
    MultipleIsFar(q - x / n, n);
    assert (q - x / n) * n == x % n - r;
  }
}
