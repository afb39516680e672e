/** Small vocabulary shared by every model. */
module Prelude {

  datatype Option<+T> = None | Some(value: T)

  datatype Result<+T, +E> = Ok(value: T) | Err(error: E)

  /** How one database transaction ended, seen from the client.  `AckLost` committed, but the client
      saw an exception; `Aborted` left nothing behind and the client saw an exception. */
  datatype Commit = Acked | AckLost | Aborted

  /** Whatever the environment chooses. */
  method Arbitrary<T(0)>() returns (x: T) {
    x := *;
  }

  function Min(a: int, b: int): int {
    if a <= b then a else b
  }

  function Max(a: int, b: int): int {
    if a <= b then b else a
  }

  function Pow2(n: nat): (p: nat)
    ensures p >= 1
  {
    if n == 0 then 1 else 2 * Pow2(n - 1)
  }

  /** The decimal text of a number; stands for the canonical text of an identifier. */
  function Decimal(n: nat): (s: string)
    ensures |s| > 0
  {
    if n < 10 then [Digit(n)] else Decimal(n / 10) + [Digit(n % 10)]
  }

  function Digit(d: nat): char
    requires d < 10
  {
    "0123456789"[d]
  }

  lemma {:induction false} DecimalInjective(m: nat, n: nat)
    requires Decimal(m) == Decimal(n)
    ensures m == n
  {
    var s, t := Decimal(m), Decimal(n);
    assert s[|s| - 1] == Digit(m % 10) && t[|t| - 1] == Digit(n % 10);
    DigitInjective(m % 10, n % 10);
    if m >= 10 && n >= 10 {
      assert s[..|s| - 1] == Decimal(m / 10) && t[..|t| - 1] == Decimal(n / 10);
      DecimalInjective(m / 10, n / 10);
    }
  }

  lemma DigitInjective(c: nat, d: nat)
    requires c < 10 && d < 10 && Digit(c) == Digit(d)
    ensures c == d
  {
    var digits := "0123456789";
    assert forall i, j | 0 <= i < j < 10 :: digits[i] != digits[j];
  }

  /** The rows of a table of pairs that one insert adds. */
  function WithEach(id: nat, others: set<nat>): set<(nat, nat)> {
    set other | other in others :: (id, other)
  }

  /** An identifier that is not taken. */
  lemma {:induction false} FreshId(taken: set<nat>) returns (n: nat)
    ensures forall k | k in taken :: k < n
    decreases |taken|
  {
    if taken == {} {
      n := 0;
    } else {
      var k := SomeElement(taken);
      var m := FreshId(taken - {k});
      n := Max(m, k + 1);
      assert forall i | i in taken :: i == k || i in taken - {k};
    }
  }

  lemma SomeElement<T>(s: set<T>) returns (x: T)
    requires s != {}
    ensures x in s
  {
    x :| x in s;
  }
}
