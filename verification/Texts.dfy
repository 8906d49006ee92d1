/** Numbers as text. */
module Texts {
  import opened Wrappers

  function Decimal(n: nat): (s: string)
    ensures s != "" && '0' <= s[|s| - 1] <= '9'
  {
    (if n < 10 then "" else Decimal(n / 10)) + [('0' as int + n % 10) as char]
  }

  /** Reading a decimal number. */
  function Number(s: string): Option<nat> {
    if s == "" then Some(0)
    else
      var high, c := Number(s[..|s| - 1]), s[|s| - 1];
      if high.Some? && '0' <= c <= '9' then Some(10 * high.value + (c - '0') as nat) else None
  }

  lemma {:induction false} DecimalReadsBack(n: nat)
    ensures Number(Decimal(n)) == Some(n)
  {
    var front := if n < 10 then "" else Decimal(n / 10);
    assert Decimal(n)[..|Decimal(n)| - 1] == front;
    if n >= 10 {
      DecimalReadsBack(n / 10);
    }
  }
}
