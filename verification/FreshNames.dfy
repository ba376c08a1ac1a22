/** The loops that look for an unused name, and the decimal numerals in the names. */
module FreshNames {

  // ----- numerals -----

  function Digit(n: nat): char
    requires n < 10
  {
    ('0' as int + n) as char
  }

  function Decimal(n: nat): (s: string)
    ensures s != ""
  {
    if n < 10 then [Digit(n)] else Decimal(n / 10) + [Digit(n % 10)]
  }

  /** Reading a numeral back; it forgets nothing about the number. */
  function Value(s: string): int {
    if s == "" then 0 else Value(s[..|s| - 1]) * 10 + (s[|s| - 1] as int - '0' as int)
  }

  lemma {:induction false} DecimalValue(n: nat)
    ensures Value(Decimal(n)) == n
  {
    var s := Decimal(n);
    if n < 10 {
      assert s[..0] == "";
    } else {
      DecimalValue(n / 10);
      assert s[..|s| - 1] == Decimal(n / 10);
    }
  }

  lemma DecimalInjective(m: nat, n: nat)
    requires Decimal(m) == Decimal(n)
    ensures m == n
  {
    DecimalValue(m);
    DecimalValue(n);
  }

  lemma {:induction false} DecimalDigits(n: nat)
    ensures forall i :: 0 <= i < |Decimal(n)| ==> '0' <= Decimal(n)[i] <= '9'
  {
    if n >= 10 { DecimalDigits(n / 10); }
  }

  // ----- a family of names -----

  ghost predicate Injective(name: nat -> string) {
    forall i: nat, j: nat :: name(i) == name(j) ==> i == j
  }

  /** The first index whose name is free. */
  ghost predicate FirstFree(name: nat -> string, taken: set<string>, k: nat) {
    name(k) !in taken && forall j: nat :: j < k ==> name(j) in taken
  }

  /** The loop ends for every finite set of names, after at most as many steps as
      there are names: `k` distinct names are taken when it has tried `k`. */
  method FindFree(name: nat -> string, taken: set<string>) returns (k: nat)
    requires Injective(name)
    ensures FirstFree(name, taken, k) && k <= |taken|
  {
    k := 0;
    ghost var tried: set<string> := {};
    while name(k) in taken
      invariant tried <= taken && |tried| == k
      invariant forall s :: s in tried ==> exists j: nat :: j < k && name(j) == s
      invariant forall j: nat :: j < k ==> name(j) in taken
      decreases |taken| - k
    {
      assert name(k) !in tried;
      Fits(tried + {name(k)}, taken);
      tried := tried + {name(k)};
      k := k + 1;
    }
    Fits(tried, taken);
  }

  lemma {:induction false} Fits<T>(small: set<T>, large: set<T>)
    requires small <= large
    ensures |small| <= |large|
  {
    if small != {} {
      var x :| x in small;
      Fits(small - {x}, large - {x});
    }
  }
}
