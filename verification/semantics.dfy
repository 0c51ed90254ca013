/**
 * What enumeration computes. `EnumAux` equals the sum, over every completion of
 * the assignment, of the product of all the variables' CPT entries in that
 * completion (`EnumAuxIsSumOfJoint`).
 */
module Semantics {
  import opened Wrappers
  import opened Values
  import opened BayesNet
  import opened Enumeration

  /** c agrees with e wherever e is defined. */
  ghost predicate Extends(c: Assignment, e: Assignment) {
    forall k | k in e :: k in c && c[k] == e[k]
  }

  /**
   * Every completion of e over vars: each unbound variable of vars bound in turn
   * to each label of its domain, in enumeration order.
   */
  function Completions(n: Net, vars: seq<string>, e: Assignment): seq<Assignment>
    decreases |vars|, 1, 0
  {
    if vars == [] then [e]
    else if vars[0] in e then Completions(n, vars[1..], e)
    else if vars[0] !in n.domains then []
    else CompletionsOver(n, vars[0], vars[1..], n.domains[vars[0]], e)
  }

  function CompletionsOver(n: Net, y: string, rest: seq<string>, vals: seq<Value>, e: Assignment): seq<Assignment>
    decreases |rest| + 1, 0, |vals|
  {
    if vals == [] then []
    else Completions(n, rest, e[y := vals[0]]) + CompletionsOver(n, y, rest, vals[1..], e)
  }

  /** Every completion of e extends e. */
  lemma {:induction false} CompletionsExtend(n: Net, vars: seq<string>, e: Assignment, c: Assignment)
    requires c in Completions(n, vars, e)
    ensures Extends(c, e)
    decreases |vars|, 1, 0
  {
    if vars != [] {
      if vars[0] in e {
        CompletionsExtend(n, vars[1..], e, c);
      } else {
        CompletionsOverExtend(n, vars[0], vars[1..], n.domains[vars[0]], e, c);
      }
    }
  }

  lemma {:induction false} CompletionsOverExtend(n: Net, y: string, rest: seq<string>, vals: seq<Value>, e: Assignment, c: Assignment)
    requires y !in e && c in CompletionsOver(n, y, rest, vals, e)
    ensures Extends(c, e)
    decreases |rest| + 1, 0, |vals|
  {
    var extended := e[y := vals[0]];
    if c in Completions(n, rest, extended) {
      CompletionsExtend(n, rest, extended, c);
    } else {
      CompletionsOverExtend(n, y, rest, vals[1..], e, c);
    }
  }

  /** The product, over vars, of each variable's CPT entry at its label in the assignment c. */
  function Joint(n: Net, vars: seq<string>, c: Assignment): Result<real, Error> {
    if vars == [] then Ok(1.0)
    else if vars[0] !in c then Err(Unassigned(vars[0]))
    else
      var p :- CondProb(n, vars[0], c[vars[0]], c);
      var rest :- Joint(n, vars[1..], c);
      Ok(Times(p, rest))
  }

  /** `Joint` of vars, as a function of the assignment. */
  function JointOf(n: Net, vars: seq<string>): Assignment -> Result<real, Error> {
    c => Joint(n, vars, c)
  }

  /** The sum of f over a list of assignments; the first error met, if any. */
  function SumEach(f: Assignment -> Result<real, Error>, cs: seq<Assignment>): Result<real, Error> {
    if cs == [] then Ok(0.0)
    else
      var a :- f(cs[0]);
      var b :- SumEach(f, cs[1..]);
      Ok(a + b)
  }

  lemma Distribute(p: real, a: real, b: real)
    ensures Times(p, a + b) == Times(p, a) + Times(p, b)
  {
  }

  /** A parent tuple read from an assignment is unchanged in any extension of it. */
  lemma {:induction false} ParentValuesExtend(ps: seq<string>, e: Assignment, c: Assignment, domains: map<string, seq<Value>>)
    requires Extends(c, e) && ParentValues(ps, e, domains).Ok?
    ensures ParentValues(ps, c, domains) == ParentValues(ps, e, domains)
  {
    if ps != [] {
      ParentValuesExtend(ps[1..], e, c, domains);
    }
  }

  /** A successful lookup reads the same probability in any extension of the assignment. */
  lemma CondProbExtend(n: Net, y: string, yv: Value, e: Assignment, c: Assignment)
    requires Extends(c, e) && CondProb(n, y, yv, e).Ok?
    ensures CondProb(n, y, yv, c) == CondProb(n, y, yv, e)
  {
    ParentValuesExtend(n.parents[y], e, c, n.domains);
  }

  /** The sum over two lists one after the other is the sum of the two sums. */
  lemma {:induction false} SumEachAppend(f: Assignment -> Result<real, Error>, a: seq<Assignment>, b: seq<Assignment>)
    requires SumEach(f, a).Ok? && SumEach(f, b).Ok?
    ensures SumEach(f, a + b) == Ok(SumEach(f, a).value + SumEach(f, b).value)
  {
    if a != [] {
      assert (a + b)[1..] == a[1..] + b;
      SumEachAppend(f, a[1..], b);
    } else {
      assert a + b == b;
    }
  }

  /** Where f is p times g on every assignment of the list, the sum of f is p times the sum of g. */
  lemma {:induction false} SumEachScaled(f: Assignment -> Result<real, Error>, g: Assignment -> Result<real, Error>,
                                         cs: seq<Assignment>, p: real)
    requires forall c | c in cs :: g(c).Ok? ==> f(c) == Ok(Times(p, g(c).value))
    requires SumEach(g, cs).Ok?
    ensures SumEach(f, cs) == Ok(Times(p, SumEach(g, cs).value))
  {
    if cs != [] {
      assert cs[0] in cs;
      SumEachScaled(f, g, cs[1..], p);
      Distribute(p, g(cs[0]).value, SumEach(g, cs[1..]).value);
    }
  }

  lemma JointCons(n: Net, vars: seq<string>, c: Assignment, p: real)
    requires vars != [] && vars[0] in c
    requires CondProb(n, vars[0], c[vars[0]], c) == Ok(p) && Joint(n, vars[1..], c).Ok?
    ensures Joint(n, vars, c) == Ok(Times(p, Joint(n, vars[1..], c).value))
  {
  }

  /** When the head's entry is the same p in every assignment of the list, it factors out of the sum. */
  lemma HeadFactors(n: Net, vars: seq<string>, cs: seq<Assignment>, p: real)
    requires vars != []
    requires forall c | c in cs :: vars[0] in c && CondProb(n, vars[0], c[vars[0]], c) == Ok(p)
    requires SumEach(JointOf(n, vars[1..]), cs).Ok?
    ensures SumEach(JointOf(n, vars), cs) == Ok(Times(p, SumEach(JointOf(n, vars[1..]), cs).value))
  {
    var f, g := JointOf(n, vars), JointOf(n, vars[1..]);
    forall c | c in cs
      ensures g(c).Ok? ==> f(c) == Ok(Times(p, g(c).value))
    {
      if g(c).Ok? {
        JointCons(n, vars, c, p);
      }
    }
    SumEachScaled(f, g, cs, p);
  }

  /** `Term` of y at each label, as a function of the label. */
  function TermOf(n: Net, y: string, rest: seq<string>, e: Assignment): Value -> Result<real, Error> {
    v => Term(n, y, rest, v, e)
  }

  /** The completions over rest of e with y bound to the label, as a function of the label. */
  function CompletionsAt(n: Net, y: string, rest: seq<string>, e: Assignment): Value -> seq<Assignment> {
    v => Completions(n, rest, e[y := v])
  }

  /** The sum of g over a list of labels; the first error met, if any. */
  function SumLabels(g: Value -> Result<real, Error>, vals: seq<Value>): Result<real, Error> {
    if vals == [] then Ok(0.0)
    else
      var a :- g(vals[0]);
      var b :- SumLabels(g, vals[1..]);
      Ok(a + b)
  }

  /** The lists h gives for each label, one after the other. */
  function ConcatLabels(h: Value -> seq<Assignment>, vals: seq<Value>): seq<Assignment> {
    if vals == [] then [] else h(vals[0]) + ConcatLabels(h, vals[1..])
  }

  /** The sum of two results; the first error, if any. */
  function Add(a: Result<real, Error>, b: Result<real, Error>): Result<real, Error> {
    var x :- a;
    var y :- b;
    Ok(x + y)
  }

  lemma SumOverStep(n: Net, y: string, rest: seq<string>, vals: seq<Value>, e: Assignment)
    requires vals != []
    ensures SumOver(n, y, rest, vals, e) == Add(Term(n, y, rest, vals[0], e), SumOver(n, y, rest, vals[1..], e))
  {
  }

  lemma SumLabelsStep(g: Value -> Result<real, Error>, vals: seq<Value>)
    requires vals != []
    ensures SumLabels(g, vals) == Add(g(vals[0]), SumLabels(g, vals[1..]))
  {
  }

  /** `SumOver` is the sum of the labels' terms. */
  lemma {:induction false} SumOverIsSumLabels(n: Net, y: string, rest: seq<string>, vals: seq<Value>, e: Assignment)
    ensures SumOver(n, y, rest, vals, e) == SumLabels(TermOf(n, y, rest, e), vals)
  {
    if vals != [] {
      var g := TermOf(n, y, rest, e);
      SumOverIsSumLabels(n, y, rest, vals[1..], e);
      SumOverStep(n, y, rest, vals, e);
      SumLabelsStep(g, vals);
      assert g(vals[0]) == Term(n, y, rest, vals[0], e);
    }
  }

  /** `CompletionsOver` is the labels' completions one after the other. */
  lemma {:induction false} CompletionsOverIsConcat(n: Net, y: string, rest: seq<string>, vals: seq<Value>, e: Assignment)
    ensures CompletionsOver(n, y, rest, vals, e) == ConcatLabels(CompletionsAt(n, y, rest, e), vals)
  {
    if vals != [] {
      CompletionsOverIsConcat(n, y, rest, vals[1..], e);
    }
  }

  /** Where each label's list sums to its term, the concatenated lists sum to the sum of the terms. */
  lemma {:induction false} SumConcat(f: Assignment -> Result<real, Error>, g: Value -> Result<real, Error>,
                                     h: Value -> seq<Assignment>, vals: seq<Value>)
    requires forall v | v in vals && g(v).Ok? :: SumEach(f, h(v)) == g(v)
    requires SumLabels(g, vals).Ok?
    ensures SumEach(f, ConcatLabels(h, vals)) == SumLabels(g, vals)
  {
    if vals != [] {
      assert vals[0] in vals;
      SumConcat(f, g, h, vals[1..]);
      SumEachAppend(f, h(vals[0]), ConcatLabels(h, vals[1..]));
    }
  }

  /** The completions that bind y to v contribute the term of v. */
  lemma {:induction false} CompletionsAtLabel(n: Net, y: string, rest: seq<string>, v: Value, e: Assignment)
    requires y !in e && Term(n, y, rest, v, e).Ok?
    ensures SumEach(JointOf(n, [y] + rest), Completions(n, rest, e[y := v])) == Term(n, y, rest, v, e)
    decreases |rest| + 1, 0
  {
    var vars := [y] + rest;
    assert vars[0] == y && vars[1..] == rest;
    var extended := e[y := v];
    var now := Completions(n, rest, extended);
    var p := CondProb(n, y, v, extended).value;
    EnumAuxIsSumOfJoint(n, rest, extended);
    forall c | c in now
      ensures y in c && CondProb(n, y, c[y], c) == Ok(p)
    {
      CompletionsExtend(n, rest, extended, c);
      CondProbExtend(n, y, v, extended, c);
    }
    HeadFactors(n, vars, now, p);
  }

  /**
   * `enum_aux` is the sum, over every completion of the assignment, of the product
   * of all CPT entries of vars: whenever it returns a value, that is the value.
   */
  lemma {:induction false} EnumAuxIsSumOfJoint(n: Net, vars: seq<string>, e: Assignment)
    requires EnumAux(n, vars, e).Ok?
    ensures SumEach(JointOf(n, vars), Completions(n, vars, e)) == EnumAux(n, vars, e)
    decreases |vars|, 1
  {
    if vars != [] {
      var y, rest := vars[0], vars[1..];
      if y in e {
        var cs := Completions(n, rest, e);
        var p := CondProb(n, y, e[y], e).value;
        EnumAuxIsSumOfJoint(n, rest, e);
        forall c | c in cs
          ensures y in c && CondProb(n, y, c[y], c) == Ok(p)
        {
          CompletionsExtend(n, rest, e, c);
          CondProbExtend(n, y, e[y], e, c);
        }
        HeadFactors(n, vars, cs, p);
      } else {
        assert vars == [y] + rest;
        var vals := n.domains[y];
        var g := TermOf(n, y, rest, e);
        var h := CompletionsAt(n, y, rest, e);
        forall v | v in vals && g(v).Ok?
          ensures SumEach(JointOf(n, vars), h(v)) == g(v)
        {
          CompletionsAtLabel(n, y, rest, v, e);
        }
        SumOverIsSumLabels(n, y, rest, vals, e);
        CompletionsOverIsConcat(n, y, rest, vals, e);
        SumConcat(JointOf(n, vars), g, h, vals);
      }
    }
  }
}
