/** Register names: the unique entry symbols of full-SSA mode, and sorting. */
module Names {
  import opened Ir

  // ----- entry symbols -----

  function Digit(d: nat): char
    requires d < 10
  {
    ['0', '1', '2', '3', '4', '5', '6', '7', '8', '9'][d]
  }

  /** Decimal notation. */
  function Decimal(n: nat): (s: string)
    ensures |s| > 0
    ensures forall i :: 0 <= i < |s| ==> '0' <= s[i] <= '9'
  {
    if n < 10 then [Digit(n)] else Decimal(n / 10) + [Digit(n % 10)]
  }

  lemma {:induction false} DecimalInjective(m: nat, n: nat)
    requires Decimal(m) == Decimal(n)
    ensures m == n
  {
    var s, t := Decimal(m), Decimal(n);
    assert s[|s| - 1] == Digit(m % 10) && t[|t| - 1] == Digit(n % 10);
    if m >= 10 && n >= 10 {
      assert s[..|s| - 1] == Decimal(m / 10) && t[..|t| - 1] == Decimal(n / 10);
      DecimalInjective(m / 10, n / 10);
    }
  }

  /** The symbol that stands for the value of register `r` on entry to block `b`. */
  function EntrySym(r: string, b: nat): string { r + "@bb" + Decimal(b) }

  /** Distinct registers or blocks have distinct symbols, whatever the register names are. */
  lemma EntrySymInjective(r: string, b: nat, r': string, b': nat)
    requires EntrySym(r, b) == EntrySym(r', b')
    ensures r == r' && b == b'
  {
    var d, d' := Decimal(b), Decimal(b');
    var s := EntrySym(r, b);
    LastAt(r, b);
    LastAt(r', b');
    assert |r| == |r'|;
    assert s[..|r|] == r && s[..|r'|] == r';
    assert s[|r| + 3..] == d && s[|r'| + 3..] == d';
    DecimalInjective(b, b');
  }

  /** The marker of the block number is the last '@'. */
  lemma LastAt(r: string, b: nat)
    ensures var s := EntrySym(r, b);
            |r| < |s| && s[|r|] == '@' && forall i :: |r| < i < |s| ==> s[i] != '@'
  {
    var s, d := EntrySym(r, b), Decimal(b);
    forall i | |r| < i < |s| ensures s[i] != '@' {
      if i >= |r| + 3 { assert s[i] == d[i - |r| - 3]; }
    }
  }

  // ----- sorting -----

  predicate LexLeq(a: string, b: string) {
    if |a| == 0 then true
    else if |b| == 0 then false
    else if a[0] != b[0] then a[0] < b[0]
    else LexLeq(a[1..], b[1..])
  }

  lemma LexTotal(a: string, b: string)
    ensures LexLeq(a, b) || LexLeq(b, a)
    ensures LexLeq(a, b) && LexLeq(b, a) ==> a == b
    decreases |a|
  {
    if |a| > 0 && |b| > 0 && a[0] == b[0] {
      LexTotal(a[1..], b[1..]);
      assert a == [a[0]] + a[1..] && b == [b[0]] + b[1..];
    }
  }

  lemma LexTransitive(a: string, b: string, c: string)
    requires LexLeq(a, b) && LexLeq(b, c)
    ensures LexLeq(a, c)
    decreases |a|
  {
    if |a| > 0 && |b| > 0 && |c| > 0 && a[0] == b[0] == c[0] { LexTransitive(a[1..], b[1..], c[1..]); }
  }

  /** The names in strictly increasing order, each once. */
  ghost predicate SortedOf(names: seq<string>, s: set<string>) {
    && (forall x :: x in names <==> x in s)
    && (forall i, j :: 0 <= i < j < |names| ==> LexLeq(names[i], names[j]) && names[i] != names[j])
  }

  method LeastName(s: set<string>) returns (least: string)
    requires s != {}
    ensures least in s && forall y :: y in s ==> LexLeq(least, y)
  {
    least :| least in s;
    var rest := s - {least};
    LexTotal(least, least);
    while rest != {}
      invariant rest <= s && least in s
      invariant forall y :: y in s && y !in rest ==> LexLeq(least, y)
      decreases |rest|
    {
      var y :| y in rest;
      LexTotal(least, y);
      LexTotal(y, y);
      if !LexLeq(least, y) {
        forall z | z in s && z !in rest ensures LexLeq(y, z) { LexTransitive(y, least, z); }
        least := y;
      }
      rest := rest - {y};
    }
  }

  method SortNames(s: set<string>) returns (names: seq<string>)
    ensures SortedOf(names, s)
  {
    names := [];
    var rest := s;
    while rest != {}
      invariant rest <= s
      invariant forall x :: x in names <==> x in s && x !in rest
      invariant forall i, j :: 0 <= i < j < |names| ==> LexLeq(names[i], names[j]) && names[i] != names[j]
      invariant forall i, y :: 0 <= i < |names| && y in rest ==> LexLeq(names[i], y)
      decreases |rest|
    {
      var least := LeastName(rest);
      names := names + [least];
      rest := rest - {least};
    }
  }
}
