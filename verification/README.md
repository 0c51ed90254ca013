# Bayesian networks and Markov chains, modelled in Dafny

This project models the two libraries at the heart of the repository:

- `RedesBa.py`, a discrete Bayesian network. A network is a record with four parts:
  - an ordered list of variable names;
  - a domain (list of labels) per variable;
  - a parent list per variable;
  - a conditional probability table (CPT) per variable. The CPT maps a tuple of parent labels to a row, and a row maps each label of the variable to a probability.

  Three mutators build a network: `agregar_variable`, `establecer_padres` and `establecer_probabilidad`. Each one silently ignores a request it cannot honour. Labels are matched by their textual form (`convertir_valor`). One probability is read with `obtener_probabilidad_condicional`. Exact inference (`inferencia_enumeracion`) runs the recursive sum of products `enum_aux` and then normalises with `normaliza`.
- `CadenasM.py`, the class `CadenaMarkov`. It holds a list of states and, per state, an ordered row mapping each destination to a probability. It adds states and transitions in place, checks that each row sums to 1, and simulates a walk.

Files:

- `wrappers.dfy`: `Option` and `Result`. A raised exception becomes `Err`; an absent key becomes `None`.
- `dicts.dfy`: Python's insertion-ordered `dict` as a sequence of pairs. Writing an existing key keeps its position; writing a new key appends it.
- `values.dfy`: labels (text or boolean, printed as Python's `str` prints them) and `convertir_valor`.
- `bayes_net.dfy`: the network, its invariant, the three mutators and the CPT lookup. The mutators are functions from the old network to the new one.
- `enumeration.dfy`: `enum_aux`, the loop that fills `Q`, `normaliza` and the query. The query is both a function and a method with the source's loop.
- `semantics.dfy`: what enumeration computes. `enum_aux` equals the sum, over every completion of the assignment, of the product of every variable's CPT entry.
- `markov_chain.dfy`: the class `Chain` with `states` and `transitions` fields, updated in place.
- `rain_example.dfy`: the rain / wet-grass network built call by call. It proves that P(rain | wet grass) = 0.198 / 0.358.

Probabilities are Dafny `real`s. All arithmetic is exact, and the 0.001 tolerances are exact comparisons.

## Model

| member | source | states |
|---|---|---|
| Values.Coerce | RedesBa.py:1-8 | The result prints like the input, and is either a domain label or the input itself |
| Values.CoerceValue | RedesBa.py:5-8 | The search loop with its early return yields the same label as `Coerce` |
| Values.CoerceFirstMatch | RedesBa.py:5-7 | The first label, in domain order, whose text equals the input's is the one returned |
| Values.CoerceNoMatch | RedesBa.py:8 | When no label matches, the input comes back unchanged |
| Values.CoerceIdempotent | RedesBa.py:1-8 | Coercing an already coerced label changes nothing |
| Values.CoerceKeepsLabel | RedesBa.py:5-7 | In a domain whose labels print distinctly, every label coerces to itself |
| Dicts.PutGet | CadenasM.py:28 | After `d[k] = v`, reading k gives v and reading any other key gives what it gave before |
| BayesNet.EmptyNet | RedesBa.py:71-77 | The new network has no variables, domains, parents or tables, and satisfies the network invariant |
| BayesNet.AddVariable | RedesBa.py:79-84 | A known name leaves the network unchanged. A new name is appended and gets its domain, an empty parent list and an empty table. No other variable's data changes |
| BayesNet.AddVariableKeepsValid | RedesBa.py:79-84 | Adding a variable preserves the network invariant, including distinct names |
| BayesNet.AddVariableIdempotent | RedesBa.py:80 | Adding the same name twice equals adding it once; the second domain is ignored |
| BayesNet.AddVariableOnce | RedesBa.py:80-81 | Afterwards the name occurs exactly once in the variable list; when new, it is last |
| BayesNet.SetParents | RedesBa.py:86-93 | An unknown variable or any unknown parent leaves the network unchanged. Otherwise that variable's parent list is replaced and its table emptied, and nothing else changes |
| BayesNet.SetParentsKeepsValid | RedesBa.py:86-93 | Setting parents preserves the network invariant |
| BayesNet.NewParentsForgetRows | RedesBa.py:92-93 | After its parents are set, every lookup of that variable fails, because its table was cleared |
| BayesNet.ParentKey | RedesBa.py:100-103 | The stored key is as long as the shorter of the given labels and the parent list, as `zip` gives. Each component is coerced against its parent's domain |
| BayesNet.RootKeyIsEmpty | RedesBa.py:100-103 | For a variable without parents, whatever labels are passed, the row is stored under `()` |
| BayesNet.ConvertRow | RedesBa.py:106-109 | No contract of its own. The row built from the caller's dictionary: keys coerced in order, a later key overwriting an earlier one that coerces to the same label. ConvertRowDistinct, ConvertRowHasKey, ConvertRowKeySource and ConvertRowValue state its keys and values |
| BayesNet.ConvertRowDistinct | RedesBa.py:106-109 | The coerced row has distinct keys |
| BayesNet.ConvertRowHasKey | RedesBa.py:106-109 | Every given key, coerced, is a key of the coerced row |
| BayesNet.ConvertRowKeySource | RedesBa.py:106-109 | Every key of the coerced row is the coercion of some given key |
| BayesNet.ConvertRowValue | RedesBa.py:106-109 | A given key's coerced label reads the value given with it, unless a later key coerces to the same label |
| BayesNet.SetProbability | RedesBa.py:95-119 | The network is unchanged in three cases: unknown variable, a domain label missing from the coerced row, or a sum off 1 by more than 0.001. Otherwise exactly one row is inserted or overwritten, under the coerced zip-built key. It needs only the network's shape (a domain, parent list and table for each listed variable, and parents that are listed). The shape is always kept, and the full invariant is kept when it held |
| BayesNet.StoreRowKeepsValid | RedesBa.py:112-119 | Storing a row that passed both checks preserves the network's shape, and the network invariant when it held |
| BayesNet.DomainLabelHasEntry | RedesBa.py:112-114 | An accepted row has an entry for every domain label, coerced |
| BayesNet.ParentValues | RedesBa.py:17-23 | A successful tuple has one component per parent |
| BayesNet.ParentValuesSpec | RedesBa.py:17-23 | The tuple is built iff every parent is assigned and has a domain. Its components are the coerced assigned labels, in parent order. A failure names an unassigned parent (the `KeyError` on the assignment) or a parent without a domain |
| BayesNet.CondProb | RedesBa.py:10-37 | No contract of its own. The lookup: the parent tuple, then the variable's domain, then the row and the coerced value. CondProbSpec, CondProbUnknown and CondProbNonNegative state its properties |
| BayesNet.CondProbSpec | RedesBa.py:10-37 | The lookup fails with the parent-tuple error, fails with a missing-entry error when the row or the coerced value is absent (never 0), and otherwise returns the stored probability |
| BayesNet.CondProbUnknown | RedesBa.py:14 | Looking up a variable that is not in the network fails with an unknown-variable error |
| BayesNet.ParentValuesOfKey | RedesBa.py:17-23 | An assignment that gives the parents the labels a row was stored with yields exactly the stored key |
| BayesNet.StoredRowIsRead | RedesBa.py:29 | After an accepted row is stored, a lookup under matching parent labels returns the stored probability of the coerced value |
| BayesNet.StoredValueIsRead | RedesBa.py:106-119 | After an accepted row is stored, a lookup of a label the caller gave, under matching parent labels, returns the probability the caller gave with it, unless a later key coerces to the same label |
| Enumeration.CondProbNonNegative | RedesBa.py:10-29 | A probability read from a network with nonnegative rows is nonnegative |
| Enumeration.EnumAux | RedesBa.py:49-51 | An empty variable list weighs 1 |
| Enumeration.SumOver | RedesBa.py:59-65 | The sum over an empty domain is 0 |
| Enumeration.EnumAuxNonNegative | RedesBa.py:49-65 | With nonnegative rows, a successful `enum_aux` is nonnegative |
| Enumeration.Term | RedesBa.py:60-64 | No contract of its own. One pass of the loop over an unassigned variable: the assignment extended with the variable bound to the label, its entry times `enum_aux` of the rest. TermNonNegative and CompletionsAtLabel state its properties |
| Enumeration.SumOverNonNegative | RedesBa.py:59-65 | With nonnegative rows, the sum over an unassigned variable's domain is nonnegative |
| Enumeration.TermNonNegative | RedesBa.py:61-64 | With nonnegative rows, one term of that sum is nonnegative |
| Enumeration.Fill | RedesBa.py:42-46 | No contract of its own. The loop filling `Q` label by label, for any per-label computation, aborting on the first error. FillKeyIn, FillDistinct, FillKeysInOrder, FillValues, FillError and FillFirstError state its properties |
| Enumeration.Weight | RedesBa.py:43-45 | No contract of its own. The computation for one candidate label: `enum_aux` over all variables with the query bound to the label. EvidenceOnQueryIgnored and PosteriorSpec state its properties |
| Enumeration.FillKeyIn | RedesBa.py:42-46 | `Q` has an entry for exactly the labels of the query's domain |
| Enumeration.FillDistinct | RedesBa.py:42-46 | `Q` has distinct keys |
| Enumeration.FillKeysInOrder | RedesBa.py:42-46 | For a domain without repeats, `Q`'s keys are the domain in domain order |
| Enumeration.FillValues | RedesBa.py:42-46 | `Q[k]` is the weight computed for k |
| Enumeration.FillError | RedesBa.py:43-46 | If the weight of any label fails, filling `Q` fails |
| Enumeration.FillFirstError | RedesBa.py:43-46 | Filling `Q` fails with the error of the first label, in domain order, whose weight fails |
| Enumeration.FillAgree | RedesBa.py:43-46 | Two weight functions that agree on the domain fill the same `Q` |
| Enumeration.DivideAll | RedesBa.py:69 | Same keys in the same order; each value divided by the total |
| Enumeration.ZeroAll | RedesBa.py:69 | Same keys in the same order; each value 0 |
| Enumeration.Normalize | RedesBa.py:67-69 | Same keys in the same order. A positive total gives values v/total that sum to 1. A total of 0 or less gives all values 0 |
| Enumeration.TotalDivided | RedesBa.py:68-69 | Dividing every value by t divides the sum by t |
| Enumeration.TotalZeroed | RedesBa.py:69 | The zeroed values sum to 0 |
| Enumeration.NormalizeIdempotent | RedesBa.py:67-69 | Normalising twice equals normalising once |
| Enumeration.GetDivideAll | RedesBa.py:69 | Key by key, the divided value is the old value over t |
| Enumeration.GetZeroAll | RedesBa.py:69 | Key by key, the zeroed value is 0 |
| Enumeration.NormalizeGet | RedesBa.py:67-69 | Key by key, the normalised value is v/total for a positive total, else 0 |
| Enumeration.Posterior | RedesBa.py:41-43 | A query variable without a domain fails with an unknown-variable error |
| Enumeration.PosteriorSpec | RedesBa.py:41-47 | A successful query has an entry for each domain label, in domain order when the labels are distinct. Its values sum to 1 or are all 0. Label k's entry is the enumeration with the query bound to k, divided by the total over the domain |
| Enumeration.PosteriorError | RedesBa.py:43-46 | If the enumeration fails for any domain label, the query fails |
| Enumeration.InferEnumeration | RedesBa.py:41-47 | The loop filling `Q` label by label, then normalising, returns exactly the query's result |
| Enumeration.EvidenceOnQueryIgnored | RedesBa.py:44-45 | Evidence on the query variable itself does not change the result |
| Semantics.CompletionsExtend | RedesBa.py:59-64 | Every completion enumerated from an assignment agrees with it wherever it is defined |
| Semantics.CompletionsOverExtend | RedesBa.py:60-62 | The completions for one unassigned variable extend the assignment |
| Semantics.ParentValuesExtend | RedesBa.py:17-23 | Extending an assignment does not change a parent tuple that already succeeded |
| Semantics.CondProbExtend | RedesBa.py:10-29 | Extending an assignment does not change a lookup that already succeeded |
| Semantics.HeadFactors | RedesBa.py:54-57 | When every completion gives the head the same entry p, the summed products over all variables are p times those over the tail |
| Semantics.CompletionsAtLabel | RedesBa.py:60-64 | One term of the loop over an unassigned variable equals the products summed over the completions with that variable bound to the label |
| Semantics.EnumAuxIsSumOfJoint | RedesBa.py:49-65 | A successful `enum_aux` equals the sum, over every completion of the assignment, of the product of all the variables' entries |
| Markov.Chain.constructor | CadenasM.py:4-9 | A new chain has no states and no rows, and satisfies the class invariant |
| Markov.Chain.AddState | CadenasM.py:11-18 | A new state is appended once and gets an empty row; a known state changes nothing. The invariant is kept: distinct states, one row per state, known destinations |
| Markov.Chain.SetTransition | CadenasM.py:20-28 | When both states are known, exactly the entry [source][target] is written, in place or appended; otherwise nothing changes. States are unchanged and the invariant is kept |
| Markov.Chain.ValidateTransitions | CadenasM.py:30-37 | Passes iff every row sums to 1 within 0.001. A failure names the first state, in insertion order, whose row does not; an empty row sums to 0 |
| Markov.Chain.Simulate | CadenasM.py:39-61 | An unknown initial state fails. A success has max(steps, 0) + 1 states, starts at the initial state, and each step goes to a destination of the current row. A failure names a state with no row or an empty row, and that state ends a walk from the initial state of at most `steps` states, so a walk of 0 steps never fails. Under the invariant every visited state is known |
| Markov.Chain.WalkStaysInStates | CadenasM.py:52-59 | Under the invariant, a walk from a known state visits only known states |
| RainExample.RainNet | test_validacion.py:11-26 | The network the test builds, call by call, satisfies the network invariant |
| RainExample.Skeleton | test_validacion.py:11-14 | The network with both variables declared and wet grass under rain satisfies the invariant |
| RainExample.SkeletonIs | test_validacion.py:11-14 | That network, written out: two variables with labels T and F, one parent, empty tables |
| RainExample.PriorStage | test_validacion.py:16-17 | The prior of rain is stored under the empty key |
| RainExample.WetIfRainStage | test_validacion.py:19-26 | The row of wet grass given rain is stored under the key (T) |
| RainExample.WetIfDryStage | test_validacion.py:19-26 | The row of wet grass given no rain is stored under the key (F), beside the other |
| RainExample.RainNetIs | test_validacion.py:11-26 | The network the test builds equals the written-out network with its three rows |
| RainExample.PriorEntry | test_validacion.py:16-17 | Rain's entry is 0.2 for T and 0.8 for F |
| RainExample.WetEntry | test_validacion.py:19-24 | Wet grass's entry under rain is 0.99, and under no rain 0.20 |
| RainExample.WeightOf | test_validacion.py:39-41 | With the grass wet, the enumeration is 0.198 with rain and 0.16 without |
| RainExample.NormalizedWeights | test_validacion.py:40-41 | Normalising 0.198 and 0.16 divides each by 0.358 |
| RainExample.RainGivenWetGrass | test_validacion.py:30-42 | The query for rain given wet grass returns 0.198 / 0.358 for T and 0.16 / 0.358 for F |

## Left out

- Variable elimination (`inferencia_eliminacion_variables`, `eliminar_variable`, `obtener_nodos`) is not part of this model. The repository calls it but does not define it in `RedesBa.py`.
- `calcular_estacionaria`, `analizar_estructura` and `visualizar` of `CadenaMarkov` are not part of this model. They are called but not defined in `CadenasM.py`, and they are floating-point linear algebra.
- `OcultasM.py`, the user interfaces, the JSON save/load and the example drivers are outside the modelled libraries.
- Markov.Chain.Simulate: `random.choices` becomes an arbitrary choice among the current row's destinations. The weighting by probability is not modelled, and neither is the `ValueError` `random.choices` raises when a row's weights sum to 0 or less.
- Floating-point rounding is not modelled. Probabilities are exact reals, and the tolerance checks compare exactly.
- The diagnostic `print` calls before the lookup error (RedesBa.py:31-36) are left out; only the error outcome is modelled.
- Python distinguishes `KeyError` from `ValueError`. The model keeps one error datatype whose cases name the failing lookup instead (unknown variable, unassigned parent, missing row or value).
- The mutators copy the network instead of updating the shared `red` dict in place. A caller that kept a reference to an inner list or dict (a domain list passed to `agregar_variable`, say) and later mutated it would see the change in Python but not here.
- BayesNet.SetProbability requires the network's shape: each listed variable has a domain, a parent list and a table, no other name has one, and every parent is a listed variable. Python needs only the variable's own entries and the domains of the parents that `zip` pairs with a given label. A hand-built dict with an entry for an unlisted name, or with an unlisted parent beyond the labels given, is accepted by Python but outside the model. Rows written directly, without the checks, are inside it: only the shape is required, and the full invariant is promised only when it held before.
- The code's own choices, which the model follows: the tolerance on a row's sum is 0.001 (RedesBa.py:116). A parent tuple longer or shorter than the parent list is cut to the shorter length by `zip` (RedesBa.py:100-103). A mutation that cannot be honoured returns without raising (RedesBa.py:87-91, 96-97, 112-117). A missing row or value raises `ValueError` (RedesBa.py:28-37).
- Markov.Chain.ValidateTransitions: the rows are visited in the order of `states`. Python iterates `transiciones` in insertion order, which is the same order because each state's row is created when the state is appended.
- Labels are text or booleans. Other Python types a domain could hold (numbers, tuples) are not modelled; `str` of a boolean is "True" or "False".
