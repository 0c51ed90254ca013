/**
 * The two-variable network of test_validacion.py: rain (`Lluvia`) with prior 0.2,
 * and wet grass (`PastoMojado`) with P(wet | rain) = 0.99 and P(wet | no rain) = 0.2,
 * built through the mutators, and its posterior of rain given wet grass.
 */
module RainExample {
  import opened Wrappers
  import opened Dicts
  import opened Values
  import opened BayesNet
  import opened Enumeration

  const Yes: Value := Text("T")
  const No: Value := Text("F")

  /** The network after the test declares the variables and the parent. */
  function Skeleton(): (n: Net)
    ensures Valid(n)
  {
    var n0 := EmptyNet();
    var n1 := AddVariable(n0, "Lluvia", [Yes, No]);
    var n2 := AddVariable(n1, "PastoMojado", [Yes, No]);
    AddVariableKeepsValid(n0, "Lluvia", [Yes, No]);
    AddVariableKeepsValid(n1, "PastoMojado", [Yes, No]);
    SetParentsKeepsValid(n2, "PastoMojado", ["Lluvia"]);
    SetParents(n2, "PastoMojado", ["Lluvia"])
  }

  /** The three rows the test stores: the prior of rain, and wet grass given rain and given none. */
  const PriorRow: Row := [(Yes, 0.2), (No, 0.8)]
  const WetIfRain: Row := [(Yes, 0.99), (No, 0.01)]
  const WetIfDry: Row := [(Yes, 0.20), (No, 0.80)]

  /** The network as the test builds it, call by call. */
  function RainNet(): (r: Net)
    ensures Valid(r)
  {
    var n4 := SetProbability(Skeleton(), "Lluvia", [], PriorRow);
    var n5 := SetProbability(n4, "PastoMojado", [Yes], WetIfRain);
    SetProbability(n5, "PastoMojado", [No], WetIfDry)
  }

  /** The same networks, stage by stage, written out. */
  const Bare: Net := Net(
    ["Lluvia", "PastoMojado"],
    map["Lluvia" := [Yes, No], "PastoMojado" := [Yes, No]],
    map["Lluvia" := [], "PastoMojado" := ["Lluvia"]],
    map["Lluvia" := map[], "PastoMojado" := map[]])
  const WithPrior: Net := Bare.(cpt := Bare.cpt["Lluvia" := map[[] := PriorRow]])
  const WithWetIfRain: Net := WithPrior.(cpt := WithPrior.cpt["PastoMojado" := map[[Yes] := WetIfRain]])
  const Full: Net := WithWetIfRain.(cpt := WithWetIfRain.cpt["PastoMojado" := map[[Yes] := WetIfRain, [No] := WetIfDry]])

  /** Both labels are plain text, matched by their own text. */
  lemma CoerceLabels()
    ensures Coerce(Yes, [Yes, No]) == Yes && Coerce(No, [Yes, No]) == No
  {
    assert Show(No) != Show(Yes);
  }

  /** A two-entry row over the labels is stored as given. */
  lemma StoredRow(p: real, q: real)
    ensures ConvertRow([(Yes, p), (No, q)], [Yes, No]) == [(Yes, p), (No, q)]
  {
    CoerceLabels();
    var probs := [(Yes, p), (No, q)];
    assert probs[..1] == [(Yes, p)] && probs[..1][..0] == [];
    assert ConvertRow(probs[..1], [Yes, No]) == Put([], Yes, p) == [(Yes, p)];
    assert Put([(Yes, p)], No, q) == [(Yes, p)] + Put([], No, q);
  }

  /** The skeleton written out: both variables, wet grass under rain, no rows yet. */
  lemma SkeletonIs()
    ensures Skeleton() == Bare
  {
    var n1 := AddVariable(EmptyNet(), "Lluvia", [Yes, No]);
    assert n1 == Net(["Lluvia"], map["Lluvia" := [Yes, No]], map["Lluvia" := []], map["Lluvia" := map[]]);
    assert "PastoMojado" !in n1.variables;
    var n2 := AddVariable(n1, "PastoMojado", [Yes, No]);
    assert n2.variables == ["Lluvia", "PastoMojado"];
    assert forall p | p in ["Lluvia"] :: p in n2.variables;
    var n3 := SetParents(n2, "PastoMojado", ["Lluvia"]);
    assert n3 == n2.(parents := n2.parents["PastoMojado" := ["Lluvia"]], cpt := n2.cpt["PastoMojado" := map[]]);
    OverwriteSecond("Lluvia", "PastoMojado", [], [], ["Lluvia"]);
    OverwriteSecond<string, Table>("Lluvia", "PastoMojado", map[], map[], map[]);
  }

  /** A two-entry row over the labels that sums to 1 passes both checks. */
  lemma TwoEntryRowAccepted(p: real, q: real)
    requires p + q == 1.0
    ensures RowAccepted([(Yes, p), (No, q)], [Yes, No])
  {
    var row := [(Yes, p), (No, q)];
    assert Keys(row) == [Yes, No];
    assert row[1..] == [(No, q)] && [(No, q)][1..] == [];
    assert Total([(No, q)]) == q;
  }

  /** Storing a balanced two-entry row over the labels. */
  lemma StoreStep(n: Net, v: string, vals: seq<Value>, p: real, q: real, key: seq<Value>)
    requires Valid(n) && v in n.variables && n.domains[v] == [Yes, No]
    requires p + q == 1.0 && ParentKey(vals, n.parents[v], n.domains) == key
    ensures SetProbability(n, v, vals, [(Yes, p), (No, q)])
      == n.(cpt := n.cpt[v := n.cpt[v][key := [(Yes, p), (No, q)]]])
  {
    StoredRow(p, q);
    TwoEntryRowAccepted(p, q);
  }

  /** A one-value parent list for wet grass is keyed by that label. */
  lemma ParentKeyOfLabel(x: Value)
    requires x == Yes || x == No
    ensures ParentKey([x], ["Lluvia"], Bare.domains) == [x]
  {
    CoerceLabels();
  }

  /** The prior of rain is stored under the empty key of the parentless variable. */
  lemma PriorStage()
    ensures SetProbability(Skeleton(), "Lluvia", [], PriorRow) == WithPrior && Valid(WithPrior)
  {
    SkeletonIs();
    StoreStep(Bare, "Lluvia", [], 0.2, 0.8, []);
  }

  /** The row for wet grass under rain is stored under the key (T). */
  lemma WetIfRainStage()
    ensures Valid(WithPrior) && SetProbability(WithPrior, "PastoMojado", [Yes], WetIfRain) == WithWetIfRain
  {
    PriorStage();
    ParentKeyOfLabel(Yes);
    StoreStep(WithPrior, "PastoMojado", [Yes], 0.99, 0.01, [Yes]);
  }

  /** The row for wet grass without rain is stored under the key (F), beside the other. */
  lemma WetIfDryStage()
    ensures Valid(WithWetIfRain) && SetProbability(WithWetIfRain, "PastoMojado", [No], WetIfDry) == Full
  {
    WetIfRainStage();
    ParentKeyOfLabel(No);
    StoreStep(WithWetIfRain, "PastoMojado", [No], 0.20, 0.80, [No]);
  }

  /** The network the test builds, written out: two variables, one parent, three stored rows. */
  lemma RainNetIs()
    ensures RainNet() == Full
  {
    PriorStage();
    WetIfRainStage();
    WetIfDryStage();
  }

  /** The evidence of the test: the grass is wet. */
  const WetGrass: Assignment := map["PastoMojado" := Yes]

  /** Rain's entry under the evidence with rain bound to x: its prior. */
  lemma PriorEntry(x: Value)
    requires x == Yes || x == No
    ensures CondProb(Full, "Lluvia", x, WetGrass["Lluvia" := x]) == Ok(if x == Yes then 0.2 else 0.8)
  {
    CoerceLabels();
    assert Full.parents["Lluvia"] == [] && Full.domains["Lluvia"] == [Yes, No];
    assert Full.cpt["Lluvia"] == map[[] := PriorRow];
    assert Get(PriorRow, x) == Some(if x == Yes then 0.2 else 0.8);
  }

  /** Wet grass's entry under the evidence with rain bound to x: the row of x. */
  lemma WetEntry(x: Value)
    requires x == Yes || x == No
    ensures CondProb(Full, "PastoMojado", Yes, WetGrass["Lluvia" := x]) == Ok(if x == Yes then 0.99 else 0.20)
  {
    CoerceLabels();
    assert Full.parents["PastoMojado"] == ["Lluvia"] && Full.domains["PastoMojado"] == [Yes, No];
    var given := WetGrass["Lluvia" := x];
    assert ["Lluvia"][1..] == [] && "Lluvia" in given && given["Lluvia"] == x;
    assert "Lluvia" in Full.domains && Coerce(x, Full.domains["Lluvia"]) == x;
    assert ParentValues([], given, Full.domains) == Ok([]) && [x] + [] == [x];
    assert ParentValues(["Lluvia"], given, Full.domains) == Ok([x]);
    assert Full.cpt["PastoMojado"] == map[[Yes] := WetIfRain, [No] := WetIfDry];
    assert Get(if x == Yes then WetIfRain else WetIfDry, Yes) == Some(if x == Yes then 0.99 else 0.20);
  }

  /** With rain bound to x and the grass wet, both variables are assigned: the product of their entries. */
  lemma WeightOf(x: Value)
    requires x == Yes || x == No
    ensures EnumAux(Full, Full.variables, WetGrass["Lluvia" := x]) == Ok(if x == Yes then 0.198 else 0.16)
  {
    var given := WetGrass["Lluvia" := x];
    var vars := Full.variables;
    assert vars[0] == "Lluvia" && vars[1..] == ["PastoMojado"] && ["PastoMojado"][1..] == [];
    assert "Lluvia" in given && given["Lluvia"] == x && "PastoMojado" in given && given["PastoMojado"] == Yes;
    PriorEntry(x);
    WetEntry(x);
    var wet := if x == Yes then 0.99 else 0.20;
    assert EnumAux(Full, ["PastoMojado"], given) == Ok(Times(wet, 1.0));
  }

  /** The weight of label x, seen through the function the query fills `Q` with. */
  lemma WeightApplied(f: Value -> Result<real, Error>, x: Value)
    requires f == Weight(Full, "Lluvia", WetGrass) && (x == Yes || x == No)
    ensures f(x) == Ok(if x == Yes then 0.198 else 0.16)
  {
    WeightOf(x);
  }

  /** Filling `Q` over the two labels with weights 0.198 and 0.16, in domain order. */
  lemma Weights(labels: seq<Value>, f: Value -> Result<real, Error>)
    requires labels == [Yes, No] && f(Yes) == Ok(0.198) && f(No) == Ok(0.16)
    ensures Fill(labels, f) == Ok([(Yes, 0.198), (No, 0.16)])
  {
    assert labels[..0] == [] && labels[..2] == labels;
    FillStep(labels, f, 0, [], 0.198);
    FillStep(labels, f, 1, Put([], Yes, 0.198), 0.16);
    TwoPuts(Yes, No, 0.198, 0.16);
  }

  /** Normalising the weights divides each by their sum, 0.358. */
  lemma NormalizedWeights(q: Dict<Value, real>)
    requires q == [(Yes, 0.198), (No, 0.16)]
    ensures Normalize(q) == [(Yes, 0.198 / 0.358), (No, 0.16 / 0.358)]
  {
    assert q[1..] == [(No, 0.16)] && q[1..][1..] == [];
    assert Total(q[1..][1..]) == 0.0 && Total(q[1..]) == 0.16;
    assert Total(q) == 0.358;
    var r := Normalize(q);
    assert |r| == 2 && Keys(r) == [Yes, No];
    assert r[0] == (Yes, 0.198 / 0.358) && r[1] == (No, 0.16 / 0.358);
  }

  /** The query on the network written out. */
  lemma PosteriorOfFull(n: Net)
    requires n == Full
    ensures Posterior(n, "Lluvia", WetGrass) == Ok([(Yes, 0.198 / 0.358), (No, 0.16 / 0.358)])
  {
    var f := Weight(n, "Lluvia", WetGrass);
    WeightApplied(f, Yes);
    WeightApplied(f, No);
    Weights(n.domains["Lluvia"], f);
    NormalizedWeights([(Yes, 0.198), (No, 0.16)]);
  }

  /**
   * The query of test_validacion.py: given wet grass, rain has probability
   * 0.198 / 0.358 and no rain 0.16 / 0.358.
   */
  lemma RainGivenWetGrass()
    ensures Posterior(RainNet(), "Lluvia", WetGrass) == Ok([(Yes, 0.198 / 0.358), (No, 0.16 / 0.358)])
  {
    RainNetIs();
    PosteriorOfFull(RainNet());
  }

}
