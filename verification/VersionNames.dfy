/** The version names of a policy: `fmt.Sprintf("v%d", n)` and the `strconv.Atoi` that reads them back. */
module VersionNames {

  function Digit(n: int): char
    requires 0 <= n < 10
  {
    '0' + n as char
  }

  predicate IsDigit(c: char) { '0' <= c <= '9' }

  /** The decimal rendering of a natural number (`%d`). */
  function Decimal(n: nat): string {
    if n < 10 then [Digit(n)] else Decimal(n / 10) + [Digit(n % 10)]
  }

  /** The number a digit string stands for. */
  function Value(s: string): int {
    if s == [] then 0 else 10 * Value(s[..|s| - 1]) + (s[|s| - 1] as int - '0' as int)
  }

  /** `latest, _ := strconv.Atoi(s)`: a syntax error yields zero. */
  function Atoi(s: string): int {
    if |s| > 0 && s[0] == '-' then -Unsigned(s[1..])
    else if |s| > 0 && s[0] == '+' then Unsigned(s[1..])
    else Unsigned(s)
  }

  function Unsigned(s: string): int {
    if forall c :: c in s ==> IsDigit(c) then Value(s) else 0
  }

  lemma {:induction false} DecimalReads(n: nat)
    ensures var s := Decimal(n); |s| > 0 && (forall c :: c in s ==> IsDigit(c)) && Value(s) == n
  {
    var s := Decimal(n);
    if n >= 10 {
      DecimalReads(n / 10);
      assert s[..|s| - 1] == Decimal(n / 10);
    } else {
      assert s[..|s| - 1] == [];
    }
  }

  /** Reading back a printed number gives the number. */
  lemma AtoiDecimal(n: nat)
    ensures Atoi(Decimal(n)) == n
  {
    DecimalReads(n);
    var s := Decimal(n);
    assert s[0] in s;
  }

  function VersionName(n: int): string {
    "v" + if n < 0 then "-" + Decimal(0 - n) else Decimal(n)
  }

  /** `name[1:]` parses back to the number, so distinct numbers have distinct names. */
  lemma VersionNameParses(n: int, m: int)
    ensures Atoi(VersionName(n)[1..]) == n
    ensures VersionName(n) == VersionName(m) <==> n == m
  {
    PrintedNumberParses(n);
    PrintedNumberParses(m);
  }

  lemma PrintedNumberParses(n: int)
    ensures Atoi(VersionName(n)[1..]) == n
  {
    if n < 0 {
      assert VersionName(n)[1..][1..] == Decimal(0 - n);
      DecimalReads(0 - n);
    } else {
      assert VersionName(n)[1..] == Decimal(n);
      AtoiDecimal(n);
    }
  }
}
