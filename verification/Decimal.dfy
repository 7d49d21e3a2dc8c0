/** Decimal numerals, as they appear in file names. */
module Decimal {

  predicate IsDigit(c: char)
  {
    '0' <= c <= '9'
  }

  predicate AllDigits(s: string)
  {
    forall i | 0 <= i < |s| :: IsDigit(s[i])
  }

  /** int(s) for a string of ASCII digits; leading zeros are allowed. */
  function Read(s: string): nat
    requires AllDigits(s)
  {
    if s == "" then 0
    else 10 * Read(s[..|s| - 1]) + (s[|s| - 1] as int - '0' as int)
  }

  /** str(n): a numeral without leading zeros that reads back as `n`. */
  function Show(n: nat): (s: string)
    ensures s != "" && AllDigits(s) && Read(s) == n
  {
    var last := ['0' + (n % 10) as char];
    if n < 10 then
      assert last[..0] == "";
      last
    else
      var s := Show(n / 10) + last;
      assert s[..|s| - 1] == Show(n / 10);
      s
  }

  /** No numeral is written with a leading zero, but zero itself. */
  lemma {:induction false} ShowIsPlain(n: nat)
    ensures Show(n)[0] == '0' <==> n == 0
    ensures n < 10 ==> |Show(n)| == 1
  {
    if n >= 10 {
      ShowIsPlain(n / 10);
      assert Show(n)[0] == Show(n / 10)[0];
    }
  }

  /** A zero in front does not change what a numeral means. */
  lemma {:induction false} ZeroInFront(s: string)
    requires AllDigits(s)
    ensures AllDigits("0" + s) && Read("0" + s) == Read(s)
  {
    var padded := "0" + s;
    if s == "" {
      assert padded[..0] == "";
    } else {
      ZeroInFront(s[..|s| - 1]);
      assert padded[..|padded| - 1] == "0" + s[..|s| - 1];
    }
  }
}
