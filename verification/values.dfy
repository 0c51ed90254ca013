/**
 * Domain labels and their coercion (`convertir_valor`).
 * A label may be a string or a boolean; labels are matched by their textual form,
 * so the text "True" coerces to the boolean `True` of a domain that holds it.
 */
module Values {

  datatype Value = Text(text: string) | Flag(flag: bool)

  /** The textual form of a label, as Python's `str`. */
  function Show(v: Value): string {
    match v
    case Text(s) => s
    case Flag(b) => if b then "True" else "False"
  }

  /** No two labels of the domain have the same textual form. */
  predicate ShowDistinct(domain: seq<Value>) {
    forall i, j | 0 <= i < j < |domain| :: Show(domain[i]) != Show(domain[j])
  }

  /**
   * The first domain label, in domain order, with the textual form of `raw`;
   * `raw` itself when no label matches.
   */
  function Coerce(raw: Value, domain: seq<Value>): (r: Value)
    ensures Show(r) == Show(raw)
    ensures r in domain || r == raw
  {
    if domain == [] then raw
    else if Show(domain[0]) == Show(raw) then domain[0]
    else Coerce(raw, domain[1..])
  }

  /** The search loop of `convertir_valor`, with its early return. */
  method CoerceValue(raw: Value, domain: seq<Value>) returns (r: Value)
    ensures r == Coerce(raw, domain)
  {
    for i := 0 to |domain|
      invariant Coerce(raw, domain[i..]) == Coerce(raw, domain)
    {
      assert domain[i..][1..] == domain[i + 1..];
      if Show(domain[i]) == Show(raw) {
        return domain[i];
      }
    }
    return raw;
  }

  /** The label returned is the first, in domain order, whose textual form matches. */
  lemma {:induction false} CoerceFirstMatch(raw: Value, domain: seq<Value>, i: nat)
    requires i < |domain| && Show(domain[i]) == Show(raw)
    requires forall j | 0 <= j < i :: Show(domain[j]) != Show(raw)
    ensures Coerce(raw, domain) == domain[i]
  {
    if i > 0 {
      CoerceFirstMatch(raw, domain[1..], i - 1);
    }
  }

  /** A value no label matches is returned unchanged. */
  lemma {:induction false} CoerceNoMatch(raw: Value, domain: seq<Value>)
    requires forall j | 0 <= j < |domain| :: Show(domain[j]) != Show(raw)
    ensures Coerce(raw, domain) == raw
  {
    if domain != [] {
      assert Show(domain[0]) != Show(raw);
      CoerceNoMatch(raw, domain[1..]);
    }
  }

  /** Coercing twice is coercing once. */
  lemma {:induction false} CoerceIdempotent(raw: Value, domain: seq<Value>)
    ensures Coerce(Coerce(raw, domain), domain) == Coerce(raw, domain)
  {
    if domain != [] && Show(domain[0]) != Show(raw) {
      CoerceIdempotent(raw, domain[1..]);
    }
  }

  /** In a domain whose labels have distinct textual forms, every label coerces to itself. */
  lemma {:induction false} CoerceKeepsLabel(x: Value, domain: seq<Value>)
    requires ShowDistinct(domain)
    requires x in domain
    ensures Coerce(x, domain) == x
  {
    if domain[0] != x {
      var k :| 0 <= k < |domain| && domain[k] == x;
      assert Show(domain[0]) != Show(domain[k]);
      assert x in domain[1..] by { assert domain[1..][k - 1] == x; }
      assert ShowDistinct(domain[1..]) by {
        forall i, j | 0 <= i < j < |domain| - 1
          ensures Show(domain[1..][i]) != Show(domain[1..][j])
        {
          assert domain[1..][i] == domain[i + 1] && domain[1..][j] == domain[j + 1];
        }
      }
      CoerceKeepsLabel(x, domain[1..]);
    }
  }
}
