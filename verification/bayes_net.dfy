/**
 * The discrete Bayesian network of RedesBa.py: an ordered list of variable names,
 * a domain per variable, a parent list per variable and a conditional probability
 * table (CPT) per variable, mapping a tuple of parent values to a row, an ordered
 * value -> probability dictionary. The three mutators ignore a bad request silently
 * and leave the network as it was.
 */
module BayesNet {
  import opened Wrappers
  import opened Dicts
  import opened Values

  /** One CPT row: value -> probability, in insertion order. */
  type Row = Dict<Value, real>

  /** A variable's CPT: parent-value tuple -> row. */
  type Table = map<seq<Value>, Row>

  datatype Net = Net(
    variables: seq<string>,
    domains: map<string, seq<Value>>,
    parents: map<string, seq<string>>,
    cpt: map<string, Table>)

  /** The exceptions a lookup can raise. */
  datatype Error =
    | UnknownVariable(name: string)                                  // KeyError on one of the network's dictionaries
    | Unassigned(name: string)                                       // KeyError on the assignment
    | MissingEntry(variable: string, key: seq<Value>, value: Value)  // ValueError: no such row or value

  /** How far a row's sum may be from 1. */
  const Tolerance: real := 0.001

  /** The two checks a row passes before it is stored: every domain value has an entry, and the sum is 1 within tolerance. */
  predicate RowAccepted(row: Row, domain: seq<Value>) {
    && (forall x | x in domain :: x in Keys(row))
    && Abs(Total(row) - 1.0) <= Tolerance
  }

  /**
   * What every lookup relies on: a domain, parent list and CPT for each variable
   * and for nothing else, and parents that are variables.
   */
  ghost predicate Shaped(n: Net) {
    && (forall v :: v in n.domains <==> v in n.variables)
    && (forall v :: v in n.parents <==> v in n.variables)
    && (forall v :: v in n.cpt <==> v in n.variables)
    && (forall v, p | v in n.parents && p in n.parents[v] :: p in n.variables)
  }

  /**
   * The invariant of every network built by `EmptyNet` and the three mutators:
   * `Shaped`, distinct variable names, and stored rows that passed `RowAccepted`,
   * with distinct keys, under a tuple no longer than the parent list.
   */
  ghost predicate Valid(n: Net) {
    && Shaped(n)
    && NoDup(n.variables)
    && (forall v, key | v in n.cpt && key in n.cpt[v] ::
          && v in n.parents && v in n.domains
          && |key| <= |n.parents[v]|
          && NoDup(Keys(n.cpt[v][key]))
          && RowAccepted(n.cpt[v][key], n.domains[v]))
  }

  /** `crear_red_bayesiana`. */
  function EmptyNet(): (r: Net)
    ensures Valid(r)
    ensures r.variables == [] && r.domains == map[] && r.parents == map[] && r.cpt == map[]
  {
    Net([], map[], map[], map[])
  }

  /** `agregar_variable`: a known name is ignored; a new one is appended with its domain, no parents and an empty CPT. */
  function AddVariable(n: Net, name: string, domain: seq<Value>): (r: Net)
    ensures name in n.variables ==> r == n
    ensures name !in n.variables ==>
      && r.variables == n.variables + [name]
      && r.domains == n.domains[name := domain]
      && r.parents == n.parents[name := []]
      && r.cpt == n.cpt[name := map[]]
  {
    if name in n.variables then n
    else Net(n.variables + [name], n.domains[name := domain], n.parents[name := []], n.cpt[name := map[]])
  }

  /** Adding a variable keeps the network valid. */
  lemma AddVariableKeepsValid(n: Net, name: string, domain: seq<Value>)
    requires Valid(n)
    ensures Valid(AddVariable(n, name, domain))
  {
    if name !in n.variables {
      var r := AddVariable(n, name, domain);
      AppendKeepsDistinct(n.variables, name);
      forall v, key | v in r.cpt && key in r.cpt[v]
        ensures v in r.parents && v in r.domains && |key| <= |r.parents[v]|
        ensures NoDup(Keys(r.cpt[v][key])) && RowAccepted(r.cpt[v][key], r.domains[v])
      {
        assert v != name && r.cpt[v] == n.cpt[v];
      }
    }
  }

  /**
   * `establecer_padres`: ignored when the variable or a listed parent is unknown;
   * otherwise replaces the variable's parent list and empties its CPT.
   */
  function SetParents(n: Net, v: string, ps: seq<string>): (r: Net)
    ensures (v !in n.variables || exists p | p in ps :: p !in n.variables) ==> r == n
    ensures v in n.variables && (forall p | p in ps :: p in n.variables) ==>
      r == n.(parents := n.parents[v := ps], cpt := n.cpt[v := map[]])
  {
    if v in n.variables && forall p | p in ps :: p in n.variables then
      n.(parents := n.parents[v := ps], cpt := n.cpt[v := map[]])
    else n
  }

  /** Setting the parents keeps the network valid. */
  lemma SetParentsKeepsValid(n: Net, v: string, ps: seq<string>)
    requires Valid(n)
    ensures Valid(SetParents(n, v, ps))
  {
    var r := SetParents(n, v, ps);
    if r != n {
      forall w, key | w in r.cpt && key in r.cpt[w]
        ensures w in r.parents && w in r.domains && |key| <= |r.parents[w]|
        ensures NoDup(Keys(r.cpt[w][key])) && RowAccepted(r.cpt[w][key], r.domains[w])
      {
        assert w != v && r.cpt[w] == n.cpt[w];
      }
    }
  }

  /**
   * The CPT key of `establecer_probabilidad`: the given values zipped with the
   * parent list, each coerced against its parent's domain. As with `zip`, the
   * tuple is as long as the shorter of the two.
   */
  function ParentKey(vals: seq<Value>, ps: seq<string>, domains: map<string, seq<Value>>): (key: seq<Value>)
    requires forall p | p in ps :: p in domains
    ensures |key| == if |vals| < |ps| then |vals| else |ps|
    ensures forall i | 0 <= i < |key| :: key[i] == Coerce(vals[i], domains[ps[i]])
  {
    if vals == [] || ps == [] then []
    else [Coerce(vals[0], domains[ps[0]])] + ParentKey(vals[1..], ps[1..], domains)
  }

  /**
   * The row of `establecer_probabilidad`: the given dictionary with each key
   * coerced against the variable's domain; when two keys coerce to the same
   * label the later value wins.
   */
  function ConvertRow(probs: Dict<Value, real>, domain: seq<Value>): (row: Row)
    decreases |probs|
  {
    if probs == [] then []
    else
      var last := probs[|probs| - 1];
      Put(ConvertRow(probs[..|probs| - 1], domain), Coerce(last.0, domain), last.1)
  }

  /** The row has one entry per label. */
  lemma {:induction false} ConvertRowDistinct(probs: Dict<Value, real>, domain: seq<Value>)
    ensures NoDup(Keys(ConvertRow(probs, domain)))
    decreases |probs|
  {
    if probs != [] {
      var last := probs[|probs| - 1];
      ConvertRowDistinct(probs[..|probs| - 1], domain);
      PutKeepsKeysDistinct(ConvertRow(probs[..|probs| - 1], domain), Coerce(last.0, domain), last.1);
    }
  }

  /** Every given key, coerced, has an entry in the row. */
  lemma {:induction false} ConvertRowHasKey(probs: Dict<Value, real>, domain: seq<Value>, i: nat)
    requires i < |probs|
    ensures Coerce(probs[i].0, domain) in Keys(ConvertRow(probs, domain))
    decreases |probs|
  {
    var init, last := probs[..|probs| - 1], probs[|probs| - 1];
    var x := Coerce(probs[i].0, domain);
    var prev := ConvertRow(init, domain);
    assert ConvertRow(probs, domain) == Put(prev, Coerce(last.0, domain), last.1);
    if i == |probs| - 1 {
      PutKeyIn(prev, x, last.1, x);
    } else {
      assert init[i] == probs[i];
      ConvertRowHasKey(init, domain, i);
      PutKeyIn(prev, Coerce(last.0, domain), last.1, x);
    }
  }

  /** Every entry of the row comes from a given key that coerces to it. */
  lemma {:induction false} ConvertRowKeySource(probs: Dict<Value, real>, domain: seq<Value>, x: Value) returns (i: nat)
    requires x in Keys(ConvertRow(probs, domain))
    ensures i < |probs| && Coerce(probs[i].0, domain) == x
    decreases |probs|
  {
    var init, last := probs[..|probs| - 1], probs[|probs| - 1];
    PutKeyIn(ConvertRow(init, domain), Coerce(last.0, domain), last.1, x);
    if x == Coerce(last.0, domain) {
      i := |probs| - 1;
    } else {
      i := ConvertRowKeySource(init, domain, x);
      assert init[i] == probs[i];
    }
  }

  /**
   * The row keeps the value the caller gave: a key's coerced label reads the
   * value given with it, unless a later key coerces to the same label.
   */
  lemma {:induction false} ConvertRowValue(probs: Dict<Value, real>, domain: seq<Value>, i: nat)
    requires i < |probs|
    requires forall j | i < j < |probs| :: Coerce(probs[j].0, domain) != Coerce(probs[i].0, domain)
    ensures Get(ConvertRow(probs, domain), Coerce(probs[i].0, domain)) == Some(probs[i].1)
    decreases |probs|
  {
    var init, last := probs[..|probs| - 1], probs[|probs| - 1];
    var x := Coerce(probs[i].0, domain);
    PutGet(ConvertRow(init, domain), Coerce(last.0, domain), last.1, x);
    if i < |probs| - 1 {
      assert init[i] == probs[i];
      forall j | i < j < |init|
        ensures Coerce(init[j].0, domain) != x
      {
        assert init[j] == probs[j];
      }
      ConvertRowValue(init, domain, i);
    }
  }

  /**
   * `establecer_probabilidad`: ignored when the variable is unknown, when a domain
   * value has no entry in the coerced row, or when the row's sum differs from 1 by
   * more than the tolerance; otherwise inserts or overwrites exactly the one row
   * under the coerced, zip-built parent tuple.
   */
  function SetProbability(n: Net, v: string, vals: seq<Value>, probs: Dict<Value, real>): (r: Net)
    requires Shaped(n)
    ensures Shaped(r)
    ensures Valid(n) ==> Valid(r)
    ensures v !in n.variables ==> r == n
    ensures v in n.variables ==>
      var row := ConvertRow(probs, n.domains[v]);
      && ((exists x | x in n.domains[v] :: x !in Keys(row)) ==> r == n)
      && (Abs(Total(row) - 1.0) > Tolerance ==> r == n)
      && (RowAccepted(row, n.domains[v]) ==>
            r == n.(cpt := n.cpt[v := n.cpt[v][ParentKey(vals, n.parents[v], n.domains) := row]]))
  {
    if v !in n.variables then n
    else
      var row := ConvertRow(probs, n.domains[v]);
      if !RowAccepted(row, n.domains[v]) then n
      else
        var key := ParentKey(vals, n.parents[v], n.domains);
        ConvertRowDistinct(probs, n.domains[v]);
        StoreRowKeepsValid(n, v, key, row);
        n.(cpt := n.cpt[v := n.cpt[v][key := row]])
  }

  /** Storing an accepted row with distinct keys under a tuple no longer than the parent list keeps the network valid. */
  lemma StoreRowKeepsValid(n: Net, v: string, key: seq<Value>, row: Row)
    requires Shaped(n) && v in n.variables
    requires |key| <= |n.parents[v]| && NoDup(Keys(row)) && RowAccepted(row, n.domains[v])
    ensures Shaped(n.(cpt := n.cpt[v := n.cpt[v][key := row]]))
    ensures Valid(n) ==> Valid(n.(cpt := n.cpt[v := n.cpt[v][key := row]]))
  {
    var r := n.(cpt := n.cpt[v := n.cpt[v][key := row]]);
    if !Valid(n) {
      return;
    }
    forall w, k | w in r.cpt && k in r.cpt[w]
      ensures w in r.parents && w in r.domains && |k| <= |r.parents[w]|
      ensures NoDup(Keys(r.cpt[w][k])) && RowAccepted(r.cpt[w][k], r.domains[w])
    {
      if w != v || k != key {
        assert k in n.cpt[w] && r.cpt[w][k] == n.cpt[w][k];
      }
    }
  }

  /**
   * The parent tuple of `obtener_probabilidad_condicional`: each parent's value in
   * the assignment, in parent order, coerced against the parent's domain. A parent
   * absent from the assignment, then one without a domain, raises `KeyError`.
   */
  function ParentValues(ps: seq<string>, e: map<string, Value>, domains: map<string, seq<Value>>): (r: Result<seq<Value>, Error>)
    ensures r.Ok? ==> |r.value| == |ps|
  {
    if ps == [] then Ok([])
    else if ps[0] !in e then Err(Unassigned(ps[0]))
    else if ps[0] !in domains then Err(UnknownVariable(ps[0]))
    else
      var rest :- ParentValues(ps[1..], e, domains);
      Ok([Coerce(e[ps[0]], domains[ps[0]])] + rest)
  }

  /**
   * With every parent assigned and known, the tuple is read, and is the coerced
   * values in parent order; otherwise the error names a parent that is unassigned
   * or has no domain.
   */
  lemma {:induction false} ParentValuesSpec(ps: seq<string>, e: map<string, Value>, domains: map<string, seq<Value>>)
    ensures var r := ParentValues(ps, e, domains);
      && (r.Ok? <==> forall p | p in ps :: p in e && p in domains)
      && (r.Ok? ==> forall i | 0 <= i < |ps| :: r.value[i] == Coerce(e[ps[i]], domains[ps[i]]))
      && (r.Err? ==>
            || (r.error.Unassigned? && r.error.name in ps && r.error.name !in e)
            || (r.error.UnknownVariable? && r.error.name in ps && r.error.name !in domains))
  {
    if ps != [] && ps[0] in e && ps[0] in domains {
      ParentValuesSpec(ps[1..], e, domains);
      var r := ParentValues(ps, e, domains);
      if r.Ok? {
        forall i | 0 <= i < |ps|
          ensures r.value[i] == Coerce(e[ps[i]], domains[ps[i]])
        {
          if i > 0 {
            assert r.value[i] == ParentValues(ps[1..], e, domains).value[i - 1];
            assert ps[1..][i - 1] == ps[i];
          }
        }
      }
      assert forall p | p in ps[1..] :: p in ps;
      assert forall p | p in ps && p != ps[0] :: p in ps[1..];
    }
  }

  /**
   * `obtener_probabilidad_condicional`: P(y = yv | parents of y as in e), read from
   * the stored row. An unknown variable or an unassigned parent raises `KeyError`;
   * a missing row or a value absent from the row is a `ValueError`, never 0.
   */
  function CondProb(n: Net, y: string, yv: Value, e: map<string, Value>): (r: Result<real, Error>)
  {
    if y !in n.parents then Err(UnknownVariable(y))
    else
      var key :- ParentValues(n.parents[y], e, n.domains);
      if y !in n.domains then Err(UnknownVariable(y))
      else
        var val := Coerce(yv, n.domains[y]);
        if y !in n.cpt then Err(UnknownVariable(y))
        else if key !in n.cpt[y] then Err(MissingEntry(y, key, val))
        else
          match Get(n.cpt[y][key], val)
          case Some(p) => Ok(p)
          case None => Err(MissingEntry(y, key, val))
  }

  /**
   * What `CondProb` reads, for a known variable: with every parent assigned, the
   * stored row under the coerced parent tuple at the coerced value. An unassigned
   * parent raises `KeyError`; a missing row or a value missing from the row raises
   * the lookup error, never reads as 0.
   */
  lemma CondProbSpec(n: Net, y: string, yv: Value, e: map<string, Value>)
    requires Shaped(n) && y in n.variables
    ensures var pv := ParentValues(n.parents[y], e, n.domains);
      var val := Coerce(yv, n.domains[y]);
      && (pv.Err? ==> CondProb(n, y, yv, e) == Err(pv.error))
      && (pv.Ok? && pv.value !in n.cpt[y] ==> CondProb(n, y, yv, e) == Err(MissingEntry(y, pv.value, val)))
      && (pv.Ok? && pv.value in n.cpt[y] && val !in Keys(n.cpt[y][pv.value]) ==>
            CondProb(n, y, yv, e) == Err(MissingEntry(y, pv.value, val)))
      && (pv.Ok? && pv.value in n.cpt[y] && val in Keys(n.cpt[y][pv.value]) ==>
            CondProb(n, y, yv, e) == Ok(Get(n.cpt[y][pv.value], val).value))
  {
  }

  /** A variable the network does not know raises `KeyError`. */
  lemma CondProbUnknown(n: Net, y: string, yv: Value, e: map<string, Value>)
    requires Shaped(n) && y !in n.variables
    ensures CondProb(n, y, yv, e) == Err(UnknownVariable(y))
  {
  }

  /** A second `agregar_variable` of the same name changes nothing, whatever its domain. */
  lemma AddVariableIdempotent(n: Net, name: string, d1: seq<Value>, d2: seq<Value>)
    ensures AddVariable(AddVariable(n, name, d1), name, d2) == AddVariable(n, name, d1)
  {
  }

  /** After `agregar_variable` the name occurs exactly once, at the end when it was new. */
  lemma AddVariableOnce(n: Net, name: string, domain: seq<Value>)
    requires Valid(n)
    ensures var r := AddVariable(n, name, domain);
      && name in r.variables
      && forall i, j | 0 <= i < |r.variables| && 0 <= j < |r.variables| && r.variables[i] == name && r.variables[j] == name :: i == j
    ensures name !in n.variables ==> AddVariable(n, name, domain).variables[|n.variables|] == name
  {
  }

  /** With every parent assigned, the parent tuple read from an assignment is the coerced tuple of the assigned values. */
  lemma {:induction false} ParentValuesOfKey(ps: seq<string>, vals: seq<Value>, e: map<string, Value>, domains: map<string, seq<Value>>)
    requires forall p | p in ps :: p in domains
    requires |vals| == |ps|
    requires forall i | 0 <= i < |ps| :: ps[i] in e && e[ps[i]] == vals[i]
    ensures ParentValues(ps, e, domains) == Ok(ParentKey(vals, ps, domains))
  {
    var pv := ParentValues(ps, e, domains);
    assert forall p | p in ps :: p in e;
    ParentValuesSpec(ps, e, domains);
    var key := ParentKey(vals, ps, domains);
    assert pv.value == key;
  }

  /**
   * A row stored by `establecer_probabilidad` is what `obtener_probabilidad_condicional`
   * then reads, for an assignment giving the parents the values the row was stored
   * under, at every label whose coerced form has an entry.
   */
  lemma StoredRowIsRead(n: Net, v: string, vals: seq<Value>, probs: Dict<Value, real>, e: map<string, Value>, x: Value)
    requires Shaped(n) && v in n.variables
    requires RowAccepted(ConvertRow(probs, n.domains[v]), n.domains[v])
    requires |vals| == |n.parents[v]|
    requires forall i | 0 <= i < |vals| :: n.parents[v][i] in e && e[n.parents[v][i]] == vals[i]
    requires Coerce(x, n.domains[v]) in Keys(ConvertRow(probs, n.domains[v]))
    ensures CondProb(SetProbability(n, v, vals, probs), v, x, e)
         == Ok(Get(ConvertRow(probs, n.domains[v]), Coerce(x, n.domains[v])).value)
  {
    var r := SetProbability(n, v, vals, probs);
    ParentValuesOfKey(n.parents[v], vals, e, n.domains);
    CondProbSpec(r, v, x, e);
  }

  /**
   * The round trip from the caller's dictionary: after `establecer_probabilidad`
   * stores an accepted row, looking up a label the caller gave returns the
   * probability given with it, unless a later key coerces to the same label.
   */
  lemma StoredValueIsRead(n: Net, v: string, vals: seq<Value>, probs: Dict<Value, real>, e: map<string, Value>, i: nat, x: Value, p: real)
    requires Shaped(n) && v in n.variables
    requires RowAccepted(ConvertRow(probs, n.domains[v]), n.domains[v])
    requires |vals| == |n.parents[v]|
    requires forall k | 0 <= k < |vals| :: n.parents[v][k] in e && e[n.parents[v][k]] == vals[k]
    requires i < |probs| && probs[i] == (x, p)
    requires forall j | i < j < |probs| :: Coerce(probs[j].0, n.domains[v]) != Coerce(x, n.domains[v])
    ensures CondProb(SetProbability(n, v, vals, probs), v, x, e) == Ok(p)
  {
    ConvertRowHasKey(probs, n.domains[v], i);
    ConvertRowValue(probs, n.domains[v], i);
    StoredRowIsRead(n, v, vals, probs, e, x);
  }

  /** Every label of the domain has an entry in an accepted row. */
  lemma DomainLabelHasEntry(row: Row, domain: seq<Value>, x: Value)
    requires RowAccepted(row, domain) && x in domain
    ensures Coerce(x, domain) in Keys(row)
  {
  }

  /** `establecer_padres` forgets every row of the variable: each lookup then raises. */
  lemma NewParentsForgetRows(n: Net, v: string, ps: seq<string>, x: Value, e: map<string, Value>)
    requires Valid(n) && v in n.variables
    requires forall p | p in ps :: p in n.variables
    ensures CondProb(SetParents(n, v, ps), v, x, e).Err?
  {
    var r := SetParents(n, v, ps);
    assert v in r.parents && v in r.domains && r.cpt[v] == map[];
  }

  /** For a root variable the stored key is the empty tuple, whatever tuple is passed. */
  lemma RootKeyIsEmpty(n: Net, v: string, vals: seq<Value>)
    requires Valid(n) && v in n.variables && n.parents[v] == []
    ensures ParentKey(vals, n.parents[v], n.domains) == []
  {
  }
}
