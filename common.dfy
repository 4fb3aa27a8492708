/** Shared vocabulary of the backend and client models: optional values,
    handler replies, row identifiers, the millisecond clock and the decimal
    rendering of identifiers that crosses the payment gateway as text. */
module Common {

  datatype Option<T> = None | Some(value: T)

  /** What a route handler sends back: a 200 with a body, or an error status
      with the `{ error }` text. */
  datatype Reply<T> = Ok(body: T) | Err(status: nat, error: string)
  {
    function Status(): nat {
      if Ok? then 200 else status
    }
  }

  /** Database ids come from SERIAL columns and start at 1, so a present id is
      always truthy in the JavaScript that tests it. */
  type Id = n: nat | n > 0 witness 1

  /** Time is a millisecond clock, as `Date.now()` and `NOW()` give it. */
  type Millis = int

  const SECOND_MS: int := 1000
  const HOUR_MS: int := 60 * 60 * SECOND_MS
  const DAY_MS: int := 24 * HOUR_MS
  /** The unlock window of a pay-per-view purchase: seven days. */
  const WEEK_MS: int := 7 * DAY_MS

  function DigitChar(d: nat): char
    requires d < 10
  {
    "0123456789"[d]
  }

  predicate IsDigit(c: char) {
    '0' <= c <= '9'
  }

  /** `n.toString()` for a non-negative integer. */
  function NatStr(n: nat): (s: string)
    ensures |s| > 0
    ensures forall i :: 0 <= i < |s| ==> IsDigit(s[i])
  {
    if n < 10 then [DigitChar(n)] else NatStr(n / 10) + [DigitChar(n % 10)]
  }

  /** The value of a digit string, most significant digit first. */
  function DigitsValue(s: string): nat
    requires forall i :: 0 <= i < |s| ==> IsDigit(s[i])
  {
    if s == [] then 0
    else
      var d := s[|s| - 1] as int - '0' as int;
      assert IsDigit(s[|s| - 1]);
      DigitsValue(s[..|s| - 1]) * 10 + d
  }

  /** The value of a non-empty run of decimal digits, or no value. */
  function ParseNat(s: string): (r: Option<nat>)
    ensures r.Some? <==> s != [] && forall i :: 0 <= i < |s| ==> IsDigit(s[i])
  {
    if s != [] && forall i :: 0 <= i < |s| ==> IsDigit(s[i]) then Some(DigitsValue(s)) else None
  }

  lemma {:induction false} DigitsValueOfNatStr(n: nat)
    ensures DigitsValue(NatStr(n)) == n
  {
    if n >= 10 {
      DigitsValueOfNatStr(n / 10);
      var s := NatStr(n);
      assert s[..|s| - 1] == NatStr(n / 10);
    }
  }

  /** Rendering an id as text and reading it back gives the id. */
  lemma NatStrRoundTrip(n: nat)
    ensures ParseNat(NatStr(n)) == Some(n)
  {
    DigitsValueOfNatStr(n);
  }

  /** Distinct ids render as distinct text. */
  lemma NatStrInjective(m: nat, n: nat)
    ensures NatStr(m) == NatStr(n) ==> m == n
  {
    DigitsValueOfNatStr(m);
    DigitsValueOfNatStr(n);
  }

  /** `Math.ceil(a / d)` for a non-negative `a`. */
  function CeilDiv(a: nat, d: nat): nat
    requires d > 0
  {
    if a % d == 0 then a / d else a / d + 1
  }

  /** The ceiling is the least multiple count that covers `a`. */
  lemma CeilDivBounds(a: nat, d: nat)
    requires d > 0
    ensures CeilDiv(a, d) * d >= a
    ensures CeilDiv(a, d) > 0 ==> (CeilDiv(a, d) - 1) * d < a
    ensures CeilDiv(a, d) == 0 <==> a == 0
  {
    var q, r := a / d, a % d;
    assert a == q * d + r;
    if r != 0 {
      assert (q + 1) * d == q * d + d;
    }
  }
}
