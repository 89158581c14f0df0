/**
 * Node identifiers. The builder renders its counter as the text "node-N",
 * with N in decimal. ParseNodeId reads such a text back, so that the
 * rendering is shown to be injective: distinct counters give distinct ids.
 */
module NodeIds {
  import opened Wrappers

  const Prefix: string := "node-"

  predicate IsDigit(c: char) {
    '0' <= c <= '9'
  }

  predicate AllDigits(s: string) {
    forall i | 0 <= i < |s| :: IsDigit(s[i])
  }

  function DigitChar(d: nat): (c: char)
    requires d < 10
    ensures IsDigit(c) && c as int - '0' as int == d
  {
    ('0' as int + d) as char
  }

  /**
   * The decimal rendering of n, as a JavaScript template literal gives it for every
   * counter a build can reach: no sign, no leading zeros.
   */
  function NatToDecimal(n: nat): (s: string)
    ensures 0 < |s| && AllDigits(s)
    ensures |s| > 1 ==> s[0] != '0'
    decreases n
  {
    if n < 10 then [DigitChar(n)] else NatToDecimal(n / 10) + [DigitChar(n % 10)]
  }

  /** The value of a string of decimal digits. */
  function DecimalValue(s: string): nat
    requires AllDigits(s)
  {
    if s == [] then 0 else 10 * DecimalValue(s[..|s| - 1]) + (s[|s| - 1] as int - '0' as int)
  }

  lemma {:induction false} DecimalRoundTrip(n: nat)
    ensures DecimalValue(NatToDecimal(n)) == n
    decreases n
  {
    var s := NatToDecimal(n);
    if n >= 10 {
      DecimalRoundTrip(n / 10);
      assert s[..|s| - 1] == NatToDecimal(n / 10);
    }
  }

  /** The id of the node created when the counter stood at n. */
  function NodeId(n: nat): (id: string)
    ensures |id| > |Prefix| && id[..|Prefix|] == Prefix
  {
    Prefix + NatToDecimal(n)
  }

  /** The counter value an id was rendered from, if it is an id at all. */
  function ParseNodeId(id: string): (r: Option<nat>)
    ensures r.Some? ==> |id| > |Prefix| && id[..|Prefix|] == Prefix
  {
    if |id| > |Prefix| && id[..|Prefix|] == Prefix && AllDigits(id[|Prefix|..]) then
      Some(DecimalValue(id[|Prefix|..]))
    else
      None
  }

  lemma ParseNodeIdRoundTrip(n: nat)
    ensures ParseNodeId(NodeId(n)) == Some(n)
  {
    assert NodeId(n)[|Prefix|..] == NatToDecimal(n);
    DecimalRoundTrip(n);
  }

  /** Distinct counter values give distinct ids: the round trip makes NodeId injective. */
  lemma NodeIdInjective(i: nat, j: nat)
    ensures NodeId(i) == NodeId(j) <==> i == j
  {
    ParseNodeIdRoundTrip(i);
    ParseNodeIdRoundTrip(j);
  }
}
