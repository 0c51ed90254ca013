/**
 * Exact inference by enumeration (`inferencia_enumeracion`, `enum_aux`, `normaliza`).
 * The sum-of-products runs over the network's variables in declaration order; a
 * lookup that raises aborts the whole query with that error.
 */
module Enumeration {
  import opened Wrappers
  import opened Dicts
  import opened Values
  import opened BayesNet

  /** An assignment of raw labels to variable names (the evidence, extended as the recursion goes). */
  type Assignment = map<string, Value>

  /** Every probability stored in the network is nonnegative (the mutators do not check this). */
  ghost predicate NonNegativeCpt(n: Net) {
    forall v, key, i | v in n.cpt && key in n.cpt[v] && 0 <= i < |n.cpt[v][key]| :: n.cpt[v][key][i].1 >= 0.0
  }

  /** A probability read from a network with nonnegative rows is nonnegative. */
  lemma CondProbNonNegative(n: Net, y: string, yv: Value, e: Assignment)
    requires CondProb(n, y, yv, e).Ok?
    ensures NonNegativeCpt(n) ==> CondProb(n, y, yv, e).value >= 0.0
  {
    var key := ParentValues(n.parents[y], e, n.domains).value;
    GetIsStored(n.cpt[y][key], Coerce(yv, n.domains[y]));
  }

  /** The product of a CPT entry and the weight of the rest of the variables. */
  function Times(a: real, b: real): real {
    a * b
  }

  /**
   * `enum_aux`: 1 for no variables; for an assigned head, its CPT entry times the
   * rest; for an unassigned head, the sum over its domain (`SumOver`).
   */
  function EnumAux(n: Net, vars: seq<string>, e: Assignment): (r: Result<real, Error>)
    ensures vars == [] ==> r == Ok(1.0)
    decreases |vars|, 1, 0
  {
    if vars == [] then Ok(1.0)
    else
      var y := vars[0];
      if y in e then
        var p :- CondProb(n, y, e[y], e);
        var rest :- EnumAux(n, vars[1..], e);
        Ok(Times(p, rest))
      else if y !in n.domains then Err(UnknownVariable(y))
      else SumOver(n, y, vars[1..], n.domains[y], e)
  }

  /**
   * The loop of `enum_aux` over an unassigned variable y: the terms of the labels
   * of `vals`, summed in order.
   */
  function SumOver(n: Net, y: string, rest: seq<string>, vals: seq<Value>, e: Assignment): (r: Result<real, Error>)
    ensures vals == [] ==> r == Ok(0.0)
    decreases |rest| + 1, 0, |vals|
  {
    if vals == [] then Ok(0.0)
    else
      var t :- Term(n, y, rest, vals[0], e);
      var s :- SumOver(n, y, rest, vals[1..], e);
      Ok(t + s)
  }

  /**
   * One pass of that loop: the assignment extended with y bound to v, y's CPT entry
   * under it times `EnumAux` of the remaining variables.
   */
  function Term(n: Net, y: string, rest: seq<string>, v: Value, e: Assignment): (r: Result<real, Error>)
    decreases |rest| + 1, 0, 0
  {
    var p :- CondProb(n, y, v, e[y := v]);
    var w :- EnumAux(n, rest, e[y := v]);
    Ok(Times(p, w))
  }

  /**
   * The loop that fills `Q` in `inferencia_enumeracion`, for any per-label
   * computation f: label by label in order, `Q[label] = f(label)`; the first f
   * that raises aborts the loop with its error.
   */
  function Fill(vals: seq<Value>, f: Value -> Result<real, Error>): (r: Result<Dict<Value, real>, Error>)
  {
    if vals == [] then Ok([])
    else
      var q :- Fill(vals[..|vals| - 1], f);
      var w :- f(vals[|vals| - 1]);
      Ok(Put(q, vals[|vals| - 1], w))
  }

  /** The weight of one candidate label of the query: `enum_aux` of all variables with the query bound to it. */
  function Weight(n: Net, x: string, e: Assignment): Value -> Result<real, Error> {
    k => EnumAux(n, n.variables, e[x := k])
  }

  /** `Q` has an entry for exactly the labels of `vals`. */
  lemma {:induction false} FillKeyIn(vals: seq<Value>, f: Value -> Result<real, Error>, k: Value)
    requires Fill(vals, f).Ok?
    ensures k in Keys(Fill(vals, f).value) <==> k in vals
  {
    if vals != [] {
      var init, last := vals[..|vals| - 1], vals[|vals| - 1];
      FillKeyIn(init, f, k);
      assert vals == init + [last];
    }
  }

  /** `Q` holds no key twice. */
  lemma {:induction false} FillDistinct(vals: seq<Value>, f: Value -> Result<real, Error>)
    requires Fill(vals, f).Ok?
    ensures NoDup(Keys(Fill(vals, f).value))
  {
    if vals != [] {
      var init, last := vals[..|vals| - 1], vals[|vals| - 1];
      FillDistinct(init, f);
      PutKeepsKeysDistinct(Fill(init, f).value, last, f(last).value);
    }
  }

  /** With distinct labels, the keys of `Q` are the labels in their order. */
  lemma {:induction false} FillKeysInOrder(vals: seq<Value>, f: Value -> Result<real, Error>)
    requires Fill(vals, f).Ok? && NoDup(vals)
    ensures Keys(Fill(vals, f).value) == vals
  {
    if vals != [] {
      var init, last := vals[..|vals| - 1], vals[|vals| - 1];
      assert vals == init + [last];
      assert NoDup(init) by {
        forall i, j | 0 <= i < j < |init|
          ensures init[i] != init[j]
        {
          assert init[i] == vals[i] && init[j] == vals[j];
        }
      }
      FillKeysInOrder(init, f);
    }
  }

  /** The entry of each label k is f(k). */
  lemma {:induction false} FillValues(vals: seq<Value>, f: Value -> Result<real, Error>, k: Value)
    requires Fill(vals, f).Ok?
    requires k in vals
    ensures f(k).Ok?
    ensures Get(Fill(vals, f).value, k) == Some(f(k).value)
  {
    var init, last := vals[..|vals| - 1], vals[|vals| - 1];
    var q := Fill(init, f).value;
    assert Fill(vals, f) == Ok(Put(q, last, f(last).value));
    PutGet(q, last, f(last).value, k);
    if k != last {
      assert vals == init + [last];
      assert k in init;
      FillValues(init, f, k);
    }
  }

  /** If f raises for any label, so does the whole loop. */
  lemma {:induction false} FillError(vals: seq<Value>, f: Value -> Result<real, Error>, k: Value)
    requires k in vals && f(k).Err?
    ensures Fill(vals, f).Err?
  {
    var init := vals[..|vals| - 1];
    assert vals == init + [vals[|vals| - 1]];
    if k != vals[|vals| - 1] {
      FillError(init, f, k);
    }
  }

  /** The error of the first label for which f raises is the error of the whole loop. */
  lemma {:induction false} FillFirstError(vals: seq<Value>, f: Value -> Result<real, Error>, i: nat)
    requires i < |vals| && Fill(vals[..i], f).Ok?
    requires f(vals[i]).Err?
    ensures Fill(vals, f) == Err(f(vals[i]).error)
    decreases |vals|
  {
    if i < |vals| - 1 {
      var init := vals[..|vals| - 1];
      assert init[..i] == vals[..i] && init[i] == vals[i];
      FillFirstError(init, f, i);
    } else {
      assert vals[..|vals| - 1] == vals[..i];
    }
  }

  /** One more label filled: its weight is written under it. */
  lemma FillStep(vals: seq<Value>, f: Value -> Result<real, Error>, i: nat, q: Dict<Value, real>, w: real)
    requires i < |vals| && Fill(vals[..i], f) == Ok(q) && f(vals[i]) == Ok(w)
    ensures Fill(vals[..i + 1], f) == Ok(Put(q, vals[i], w))
  {
    assert vals[..i + 1][..i] == vals[..i];
  }

  /** Two computations that agree on every label fill the same map. */
  lemma {:induction false} FillAgree(vals: seq<Value>, f: Value -> Result<real, Error>, g: Value -> Result<real, Error>)
    requires forall k | k in vals :: f(k) == g(k)
    ensures Fill(vals, f) == Fill(vals, g)
  {
    if vals != [] {
      var init := vals[..|vals| - 1];
      assert forall k | k in init :: k in vals;
      FillAgree(init, f, g);
    }
  }

  /** With nonnegative rows, every successful enumeration is nonnegative. */
  lemma {:induction false} EnumAuxNonNegative(n: Net, vars: seq<string>, e: Assignment)
    requires NonNegativeCpt(n)
    requires EnumAux(n, vars, e).Ok?
    ensures EnumAux(n, vars, e).value >= 0.0
    decreases |vars|, 1, 0
  {
    if vars != [] {
      var y := vars[0];
      if y in e {
        CondProbNonNegative(n, y, e[y], e);
        EnumAuxNonNegative(n, vars[1..], e);
        MulNonNegative(CondProb(n, y, e[y], e).value, EnumAux(n, vars[1..], e).value);
      } else {
        SumOverNonNegative(n, y, vars[1..], n.domains[y], e);
      }
    }
  }

  lemma {:induction false} SumOverNonNegative(n: Net, y: string, rest: seq<string>, vals: seq<Value>, e: Assignment)
    requires NonNegativeCpt(n)
    requires SumOver(n, y, rest, vals, e).Ok?
    ensures SumOver(n, y, rest, vals, e).value >= 0.0
    decreases |rest| + 1, 0, |vals|
  {
    if vals != [] {
      TermNonNegative(n, y, rest, vals[0], e);
      SumOverNonNegative(n, y, rest, vals[1..], e);
    }
  }

  lemma {:induction false} TermNonNegative(n: Net, y: string, rest: seq<string>, v: Value, e: Assignment)
    requires NonNegativeCpt(n)
    requires Term(n, y, rest, v, e).Ok?
    ensures Term(n, y, rest, v, e).value >= 0.0
    decreases |rest| + 1, 0, 0
  {
    var extended := e[y := v];
    CondProbNonNegative(n, y, v, extended);
    EnumAuxNonNegative(n, rest, extended);
    MulNonNegative(CondProb(n, y, v, extended).value, EnumAux(n, rest, extended).value);
  }

  lemma MulNonNegative(a: real, b: real)
    requires a >= 0.0 && b >= 0.0
    ensures Times(a, b) >= 0.0
  {
  }

  /** Each value divided by t. */
  function DivideAll(q: Dict<Value, real>, t: real): (r: Dict<Value, real>)
    requires t != 0.0
    ensures |r| == |q| && Keys(r) == Keys(q)
    ensures forall i | 0 <= i < |q| :: r[i].1 == q[i].1 / t
  {
    if q == [] then [] else [(q[0].0, q[0].1 / t)] + DivideAll(q[1..], t)
  }

  /** Each value replaced by 0. */
  function ZeroAll(q: Dict<Value, real>): (r: Dict<Value, real>)
    ensures |r| == |q| && Keys(r) == Keys(q)
    ensures forall i | 0 <= i < |q| :: r[i].1 == 0.0
  {
    if q == [] then [] else [(q[0].0, 0.0)] + ZeroAll(q[1..])
  }

  /**
   * `normaliza`: the same keys in the same order; each value divided by the total
   * when the total is positive, otherwise every value 0.
   */
  function Normalize(q: Dict<Value, real>): (r: Dict<Value, real>)
    ensures Keys(r) == Keys(q)
    ensures Total(q) > 0.0 ==> Total(r) == 1.0 && forall i | 0 <= i < |q| :: r[i].1 == q[i].1 / Total(q)
    ensures Total(q) <= 0.0 ==> Total(r) == 0.0 && forall i | 0 <= i < |q| :: r[i].1 == 0.0
  {
    var t := Total(q);
    if t > 0.0 then
      TotalDivided(q, t);
      assert t / t == 1.0;
      DivideAll(q, t)
    else
      TotalZeroed(q);
      ZeroAll(q)
  }

  lemma {:induction false} TotalDivided(q: Dict<Value, real>, t: real)
    requires t != 0.0
    ensures Total(DivideAll(q, t)) == Total(q) / t
  {
    if q != [] {
      var d := DivideAll(q, t);
      TotalDivided(q[1..], t);
      assert d[1..] == DivideAll(q[1..], t);
      assert Total(d) == q[0].1 / t + Total(q[1..]) / t;
      DivideSum(q[0].1, Total(q[1..]), t);
    }
  }

  lemma DivideSum(a: real, b: real, t: real)
    requires t != 0.0
    ensures (a + b) / t == a / t + b / t
  {
  }

  lemma {:induction false} TotalZeroed(q: Dict<Value, real>)
    ensures Total(ZeroAll(q)) == 0.0
  {
    if q != [] {
      TotalZeroed(q[1..]);
      assert ZeroAll(q)[1..] == ZeroAll(q[1..]);
    }
  }

  /** Normalising a second time changes nothing. */
  lemma NormalizeIdempotent(q: Dict<Value, real>)
    ensures Normalize(Normalize(q)) == Normalize(q)
  {
    var r := Normalize(q);
    assert |r| == |q|;
    if Total(q) > 0.0 {
      assert forall i | 0 <= i < |r| :: r[i].1 / 1.0 == r[i].1;
    }
    assert forall i | 0 <= i < |r| :: Normalize(r)[i] == r[i];
  }

  lemma {:induction false} GetDivideAll(q: Dict<Value, real>, t: real, k: Value)
    requires t != 0.0 && Get(q, k).Some?
    ensures Get(DivideAll(q, t), k) == Some(Get(q, k).value / t)
  {
    if q[0].0 != k {
      GetDivideAll(q[1..], t, k);
      assert DivideAll(q, t)[1..] == DivideAll(q[1..], t);
    }
  }

  lemma {:induction false} GetZeroAll(q: Dict<Value, real>, k: Value)
    requires Get(q, k).Some?
    ensures Get(ZeroAll(q), k) == Some(0.0)
  {
    if q[0].0 != k {
      GetZeroAll(q[1..], k);
      assert ZeroAll(q)[1..] == ZeroAll(q[1..]);
    }
  }

  /** The entry of a key after `normaliza`: its value over the total, or 0 when the total is not positive. */
  lemma NormalizeGet(q: Dict<Value, real>, k: Value)
    requires Get(q, k).Some?
    ensures Get(Normalize(q), k) == Some(if Total(q) > 0.0 then Get(q, k).value / Total(q) else 0.0)
  {
    if Total(q) > 0.0 {
      GetDivideAll(q, Total(q), k);
    } else {
      GetZeroAll(q, k);
    }
  }

  /**
   * `inferencia_enumeracion`: a query variable without a domain raises `KeyError`;
   * otherwise `Q` filled over the query's domain, normalised.
   */
  function Posterior(n: Net, x: string, e: Assignment): (r: Result<Dict<Value, real>, Error>)
    ensures x !in n.domains ==> r == Err(UnknownVariable(x))
  {
    if x !in n.domains then Err(UnknownVariable(x))
    else
      var q :- Fill(n.domains[x], Weight(n, x, e));
      Ok(Normalize(q))
  }

  /**
   * A successful query returns one entry per label of the query's domain, in
   * domain order when the labels are distinct; the entries either sum to 1 or are
   * all 0; and the entry of label k is the enumeration with the query bound to k,
   * divided by the sum of those enumerations over the domain.
   */
  lemma PosteriorSpec(n: Net, x: string, e: Assignment, k: Value)
    requires Posterior(n, x, e).Ok?
    ensures x in n.domains && Fill(n.domains[x], Weight(n, x, e)).Ok?
    ensures var r := Posterior(n, x, e).value;
      && (forall j :: j in Keys(r) <==> j in n.domains[x])
      && (NoDup(n.domains[x]) ==> Keys(r) == n.domains[x])
      && (Total(r) == 1.0 || forall i | 0 <= i < |r| :: r[i].1 == 0.0)
    ensures k in n.domains[x] ==>
      var total := Total(Fill(n.domains[x], Weight(n, x, e)).value);
      var w := EnumAux(n, n.variables, e[x := k]);
      && w.Ok?
      && Get(Posterior(n, x, e).value, k) == Some(if total > 0.0 then w.value / total else 0.0)
  {
    var f := Weight(n, x, e);
    var q := Fill(n.domains[x], f).value;
    forall j
      ensures j in Keys(q) <==> j in n.domains[x]
    {
      FillKeyIn(n.domains[x], f, j);
    }
    if NoDup(n.domains[x]) {
      FillKeysInOrder(n.domains[x], f);
    }
    if k in n.domains[x] {
      FillValues(n.domains[x], f, k);
      NormalizeGet(q, k);
    }
  }

  /** If the enumeration for any label of the domain raises, the query raises. */
  lemma PosteriorError(n: Net, x: string, e: Assignment, k: Value)
    requires x in n.domains && k in n.domains[x]
    requires EnumAux(n, n.variables, e[x := k]).Err?
    ensures Posterior(n, x, e).Err?
  {
    FillError(n.domains[x], Weight(n, x, e), k);
  }

  /** The loop of `inferencia_enumeracion`, filling `Q` label by label, then `normaliza`. */
  method InferEnumeration(n: Net, x: string, e: Assignment) returns (r: Result<Dict<Value, real>, Error>)
    ensures r == Posterior(n, x, e)
  {
    if x !in n.domains {
      return Err(UnknownVariable(x));
    }
    var domain := n.domains[x];
    var f := Weight(n, x, e);
    var q: Dict<Value, real> := [];
    for i := 0 to |domain|
      invariant Fill(domain[..i], f) == Ok(q)
    {
      var w := f(domain[i]);
      if w.Err? {
        FillFirstError(domain, f, i);
        return Err(w.error);
      }
      FillStep(domain, f, i, q, w.value);
      q := Put(q, domain[i], w.value);
    }
    assert domain[..|domain|] == domain;
    return Ok(Normalize(q));
  }

  /** Evidence on the query variable itself is overwritten by each candidate label, so it has no effect. */
  lemma EvidenceOnQueryIgnored(n: Net, x: string, e: Assignment, a: Value)
    ensures Posterior(n, x, e[x := a]) == Posterior(n, x, e)
  {
    if x in n.domains {
      forall k | k in n.domains[x]
        ensures Weight(n, x, e[x := a])(k) == Weight(n, x, e)(k)
      {
        assert e[x := a][x := k] == e[x := k];
      }
      FillAgree(n.domains[x], Weight(n, x, e[x := a]), Weight(n, x, e));
    }
  }
}
