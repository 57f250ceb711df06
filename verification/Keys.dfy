/** Keys built by joining a free-form prefix and a separator-free suffix. */
module Keys {
  /** Joining is injective: the last separator tells prefix and suffix apart,
      however often the separator occurs in the prefix. */
  lemma JoinInjective(p: string, q: string, sep: char, s: string, t: string)
    requires sep !in s && sep !in t
    requires p + [sep] + s == q + [sep] + t
    ensures p == q && s == t
  {
    var k := p + [sep] + s;
    assert k == q + [sep] + t;
    assert k[|p|] == sep && k[|q|] == sep;
    assert forall i | |p| < i < |k| :: k[i] == s[i - |p| - 1];
    assert forall i | |q| < i < |k| :: k[i] == t[i - |q| - 1];
    assert p == k[..|p|] && q == k[..|q|];
    assert s == k[|p| + 1..] && t == k[|q| + 1..];
  }

  function Digit(d: nat): char
    requires d < 10
  {
    '0' + d as char
  }

  /** Decimal rendering of a sequence number, as string interpolation does it. */
  function Decimal(n: nat): (r: string)
    ensures '-' !in r
  {
    if n < 10 then [Digit(n)] else Decimal(n / 10) + [Digit(n % 10)]
  }

  lemma {:induction false} DecimalInjective(m: nat, n: nat)
    requires Decimal(m) == Decimal(n)
    ensures m == n
    decreases m + n
  {
    var s := Decimal(m);
    DecimalLast(m);
    DecimalLast(n);
    assert Digit(m % 10) == s[|s| - 1] == Digit(n % 10);
    if m >= 10 && n >= 10 {
      assert Decimal(m / 10) == s[..|s| - 1] == Decimal(n / 10);
      DecimalInjective(m / 10, n / 10);
    } else if m < 10 {
      if n >= 10 {
        DecimalLast(n / 10);
      }
    } else {
      DecimalLast(m / 10);
    }
  }

  lemma DecimalLast(n: nat)
    ensures |Decimal(n)| > 0 && Decimal(n)[|Decimal(n)| - 1] == Digit(n % 10)
  {
  }

  /** The number a string of decimal digits stands for. */
  function Read(s: string): int {
    if s == [] then 0 else 10 * Read(s[..|s| - 1]) + (s[|s| - 1] as int - '0' as int)
  }

  /** A sequence number is written in decimal digits and reads back as itself. */
  lemma {:induction false} DecimalReads(n: nat)
    ensures Read(Decimal(n)) == n
    ensures forall c | c in Decimal(n) :: '0' <= c <= '9'
  {
    var s := Decimal(n);
    if n >= 10 {
      DecimalReads(n / 10);
      assert s[..|s| - 1] == Decimal(n / 10);
    } else {
      assert s[..0] == [] && Read(s[..0]) == 0;
    }
  }

  function TaskKey(code: string, sequence: nat): string {
    code + "-" + Decimal(sequence)
  }

  /** Two task keys coincide only for the same project code and sequence number,
      even when codes themselves contain hyphens and digits. */
  lemma TaskKeyInjective(c: string, m: nat, d: string, n: nat)
    requires TaskKey(c, m) == TaskKey(d, n)
    ensures c == d && m == n
  {
    JoinInjective(c, d, '-', Decimal(m), Decimal(n));
    DecimalInjective(m, n);
  }
}
