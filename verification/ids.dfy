/** Identifier minting: `generateId` renders the counter as `todo-N`, with N in
    decimal. `IdNumber` reads such an identifier back; it is the inverse that
    lets the store state which identifiers are already taken. */
module Ids {
  import opened Wrappers

  const Prefix: string := "todo-"

  predicate IsDigit(c: char) {
    '0' <= c <= '9'
  }

  predicate AllDigits(s: string) {
    forall i :: 0 <= i < |s| ==> IsDigit(s[i])
  }

  function DigitChar(d: nat): (c: char)
    requires d < 10
    ensures IsDigit(c)
    ensures c as int - '0' as int == d
  {
    ('0' as int + d) as char
  }

  /** Decimal rendering of a natural number, without leading zeros. */
  function Decimal(n: nat): (s: string)
    ensures |s| >= 1
    ensures AllDigits(s)
    ensures |s| > 1 ==> s[0] != '0'
    decreases n
  {
    if n < 10 then [DigitChar(n)] else Decimal(n / 10) + [DigitChar(n % 10)]
  }

  /** The number a string of decimal digits denotes. */
  function DecimalValue(s: string): nat
    requires AllDigits(s)
    decreases |s|
  {
    if |s| == 0 then 0
    else DecimalValue(s[..|s| - 1]) * 10 + (s[|s| - 1] as int - '0' as int)
  }

  /** Reading back a rendered number gives the number. */
  lemma {:induction false} DecimalRoundTrip(n: nat)
    ensures DecimalValue(Decimal(n)) == n
    decreases n
  {
    if n >= 10 {
      var s := Decimal(n);
      DecimalRoundTrip(n / 10);
      assert s[..|s| - 1] == Decimal(n / 10);
    }
  }

  /** The identifier minted from counter value `n` (src/index.ts:22-24). */
  function IdOf(n: nat): (id: string)
    ensures |id| > |Prefix| && id[..|Prefix|] == Prefix
  {
    Prefix + Decimal(n)
  }

  /** The counter value an identifier was minted from, or None when it is not
      of the form `todo-N`. */
  function IdNumber(id: string): Option<nat> {
    if |id| > |Prefix| && id[..|Prefix|] == Prefix && AllDigits(id[|Prefix|..]) then
      Some(DecimalValue(id[|Prefix|..]))
    else
      None
  }

  /** Every minted identifier reads back as the counter value it came from. */
  lemma IdRoundTrip(n: nat)
    ensures IdNumber(IdOf(n)) == Some(n)
  {
    assert IdOf(n)[|Prefix|..] == Decimal(n);
    DecimalRoundTrip(n);
  }

  /** Distinct counter values mint distinct identifiers. */
  lemma IdOfInjective(m: nat, n: nat)
    ensures IdOf(m) == IdOf(n) <==> m == n
  {
    IdRoundTrip(m);
    IdRoundTrip(n);
  }
}
