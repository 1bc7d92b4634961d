# Factored transition networks and back-projection

This project models the transition networks of AI-Toolbox's factored MDP
library and the back-projection of factored value functions through them.
The model is written in Dafny and its properties are proved.

- A **Dynamic Bayesian Network** (`DBN`, and the non-owning `DBNRef`) holds
  one conditional probability table per state variable. Each table has one
  row per assignment of the variable's parents and one column per value of
  the variable. The network answers the probability of a transition between
  two full states, or between two partial assignments. In the partial case
  the initial assignment must hold every parent of every child.
- A **CompactDDN** stores a default network and, per action, a list of
  replacement nodes. `makeDiffTransition(a)` builds the network of action
  `a` by applying a's replacements to the default, in order.
- A **FactoredDDN** gives each state variable an action tag and one table
  per joint assignment of that tag. A (partial) action selects one table
  per variable.
- **backProject** of a basis function `bf` (a dense table over a tag of
  next-state variables) through a network computes, for every assignment
  of the parents of bf's tag, the expected value of `bf` at the next step.
  The vector form applies this to each basis of a factored vector and
  merges the results with `plusEqual`. The FactoredDDN forms compute a
  matrix over state-scope × action-scope assignments.

Data model (each a `datatype`, since nothing in the core updates them in
place):

- `BayesianNetwork.Node`: DBN::Node, the parent tag and the table (lines
  31-34 of `include/AIToolbox/Factored/Utils/BayesianNetwork.hpp`).
- `BayesianNetwork.DBN` and `BayesianNetwork.DBNRef`: the node sequence of
  each network (lines 69 and 116).
- `CompactDdn.DiffNode` and `CompactDdn.CompactDDN`: a replacement node
  (lines 150-153), and the diffs with the default network (lines 192-193).
- `FactoredDdn.ActionNode` and `FactoredDdn.FactoredDDN`: the action tag
  with one table per action assignment (lines 215-218), and the nodes
  (line 258).

Files:

- `sums.dfy`: finite sums of reals.
- `factor_space.dfy`: factor spaces and tags, `merge`, the canonical
  mixed-radix layout (`factorSpacePartial`, `toIndexPartial`), and the
  `PartialFactorsEnumerator` class.
- `assignment_sums.dfy`: sums over all assignments of a tag.
- `bayesian_network.dfy`: DBN/DBNRef and both queries.
- `compact_ddn.dfy`: CompactDDN.
- `factored_ddn.dfy`: FactoredDDN.
- `factored_functions.dfy`: basis functions, factored vectors and
  matrices, and `plusEqual`.
- `state_back_projection.dfy`: backProject through a network.
- `action_back_projection.dfy`: backProject through a FactoredDDN.

Each loop of the source is a method with loop invariants, proved against a
specification function:

- `BackProjection` and `BackProjectionActions` specify the dense output;
- `BackProjectBases` and `BackProjectMatrices` specify the folds.

The meaning of each specification function is proved separately. For
example, evaluated at a full state (and action), the back-projection is
bf's expected value under the network (`BackProjectionAt`,
`BackProjectionActionsAt`).

Conventions:

- The layout of every table and output buffer is mixed radix, with the
  first variable of a tag varying fastest.
- Probabilities and values are `real`.
- The enumerators are objects whose index the loops advance and reset.
- The output of the scalar backProject is an `array` filled in place.
- The output of the FactoredDDN backProject is an `array2` filled in place.

## Model

| member | source | states |
|---|---|---|
| BayesianNetwork.TransitionProbability | include/AIToolbox/Factored/Utils/BayesianNetwork.hpp:36-45 | The full query (for DBN and DBNRef alike): the product over every variable i of the entry of node i at the row of s's values on its parents and the column s1[i]. Its meaning is stated by FullAgreesWithPartial, ProbabilityBounds and TotalProbability. |
| BayesianNetwork.PartialTransitionProbability | include/AIToolbox/Factored/Utils/BayesianNetwork.hpp:47-60 | The partial query: the product over only the children named by s1, defined only when s assigns every parent of those children (the documented precondition). Its meaning is stated by PartialProbabilityBounds and PartialQueryLocality. |
| BayesianNetwork.FullAgreesWithPartial | include/AIToolbox/Factored/Utils/BayesianNetwork.hpp:36-60 | The full-state query equals the partial query when both assignments cover every variable. |
| BayesianNetwork.ProbabilityBounds | include/AIToolbox/Factored/Utils/BayesianNetwork.hpp:25-45 | With stochastic tables, the full query lies in [0, 1]. |
| BayesianNetwork.PartialProbabilityBounds | include/AIToolbox/Factored/Utils/BayesianNetwork.hpp:47-60 | With stochastic tables, the partial query lies in [0, 1] whenever s holds every parent of the children. |
| BayesianNetwork.ChildrenProductBounds | include/AIToolbox/Factored/Utils/BayesianNetwork.hpp:47-60 | A product of one stochastic-table entry per child lies in [0, 1]. |
| BayesianNetwork.PartialQueryLocality | include/AIToolbox/Factored/Utils/BayesianNetwork.hpp:47-60 | The partial query reads the initial assignment only at the parents of the children: two assignments that agree there give the same probability. |
| BayesianNetwork.ChildrenProductAgree | include/AIToolbox/Factored/Utils/BayesianNetwork.hpp:47-60 | The same locality for any chosen tables, one per child. |
| BayesianNetwork.ChildrenMass | include/AIToolbox/Factored/Utils/BayesianNetwork.hpp:25-30 | Over all joint values of a set of children, the products of their table entries sum to 1. |
| BayesianNetwork.TotalProbability | include/AIToolbox/Factored/Utils/BayesianNetwork.hpp:25-45 | From any full state, the full-query probabilities of all full next states sum to 1. |
| BayesianNetwork.EntryFull | include/AIToolbox/Factored/Utils/BayesianNetwork.hpp:17-34 | Under a full state, a node's entry is the table row at the canonical index of its parents' values. |
| CompactDdn.MakeDiffTransition | include/AIToolbox/Factored/Utils/BayesianNetwork.hpp:166-177 | Starting from the default nodes and writing each replacement of action a in order yields the network DiffTransition(a). |
| CompactDdn.DiffTransition | include/AIToolbox/Factored/Utils/BayesianNetwork.hpp:128-136 | The network of an action has exactly one node per variable of the default network. |
| CompactDdn.OverrideDefault | include/AIToolbox/Factored/Utils/BayesianNetwork.hpp:128-136 | A variable that no replacement of the action names keeps its default node. |
| CompactDdn.OverrideLast | include/AIToolbox/Factored/Utils/BayesianNetwork.hpp:128-136 | A variable that some replacement names gets the node of the last replacement naming it. |
| CompactDdn.OverrideSource | include/AIToolbox/Factored/Utils/BayesianNetwork.hpp:128-136 | Every node of the result is either the default node or a replacement for that same variable. |
| CompactDdn.NoDiffIsDefault | include/AIToolbox/Factored/Utils/BayesianNetwork.hpp:128-136 | An action without replacements gets exactly the default network. |
| CompactDdn.DiffTransitionWellFormed | include/AIToolbox/Factored/Utils/BayesianNetwork.hpp:128-136 | If the default network and every replacement are shaped and stochastic, then so is the network of every action. |
| CompactDdn.DiffTransitionTotal | include/AIToolbox/Factored/Utils/BayesianNetwork.hpp:128-136 | The network of any action gives total probability 1 from every full state. |
| FactoredDdn.FactoredTransitionProbability | include/AIToolbox/Factored/Utils/BayesianNetwork.hpp:220-231 | The full query with an action: the full query of the network whose node i is the table that a's values on variable i's action tag select. Stated by FactoredFullAgreesWithPartial and FactoredTotalProbability. |
| FactoredDdn.FactoredPartialTransitionProbability | include/AIToolbox/Factored/Utils/BayesianNetwork.hpp:233-248 | The partial query with an action: the product over the children of s1 of the table that a selects for each, defined only when a assigns their action tags and s their parents. Stated by FactoredProbabilityBounds and ActionLocality. |
| FactoredDdn.SelectNode | include/AIToolbox/Factored/Utils/BayesianNetwork.hpp:207-218 | The table chosen for the action's values on the action tag is one of the node's tables and is shaped for the child. |
| FactoredDdn.SelectNetwork | include/AIToolbox/Factored/Utils/BayesianNetwork.hpp:220-231 | A full action selects a well-shaped network whose node i is one of variable i's tables. |
| FactoredDdn.SelectChildren | include/AIToolbox/Factored/Utils/BayesianNetwork.hpp:233-248 | A partial action that covers the children's action tags selects, for each child, one of that child's tables. |
| FactoredDdn.SelectFull | include/AIToolbox/Factored/Utils/BayesianNetwork.hpp:220-248 | A full action, seen as a partial one, selects for any children the nodes of its network. |
| FactoredDdn.FactoredFullAgreesWithPartial | include/AIToolbox/Factored/Utils/BayesianNetwork.hpp:220-248 | The full query equals the partial query with state, action and next state covering every variable. |
| FactoredDdn.SelectStochastic | include/AIToolbox/Factored/Utils/BayesianNetwork.hpp:207-218 | The network any action selects from a stochastic FactoredDDN is stochastic. |
| FactoredDdn.FactoredProbabilityBounds | include/AIToolbox/Factored/Utils/BayesianNetwork.hpp:233-248 | The partial query lies in [0, 1]. |
| FactoredDdn.FactoredTotalProbability | include/AIToolbox/Factored/Utils/BayesianNetwork.hpp:220-231 | Under any action, the probabilities of all full next states sum to 1. |
| FactoredDdn.ActionLocality | include/AIToolbox/Factored/Utils/BayesianNetwork.hpp:233-248 | The partial query reads the action only on the children's action tags: two actions that agree there select the same tables and give the same probability. |
| FactorSpace.Merge | include/AIToolbox/Factored/Utils/BayesianNetwork.hpp:273-274 | The merge of two tags is a tag (strictly increasing) holding exactly the ids of both. |
| FactorSpace.MergeCommutes | include/AIToolbox/Factored/Utils/BayesianNetwork.hpp:273-274 | Merge does not depend on argument order, and the empty tag is its unit. |
| FactorSpace.DomainSize | include/AIToolbox/Factored/Utils/BayesianNetwork.hpp:276 | Every tag has at least one assignment. |
| FactorSpace.ToIndex | include/AIToolbox/Factored/Utils/BayesianNetwork.hpp:276 | The index of an assignment is below the size of the tag's domain. |
| FactorSpace.ToFromIndex | include/AIToolbox/Factored/Utils/BayesianNetwork.hpp:276-308 | Each index below the domain size is the index of the assignment enumerated at it. |
| FactorSpace.FromToIndex | include/AIToolbox/Factored/Utils/BayesianNetwork.hpp:276-308 | Each assignment is the one enumerated at its index, so the enumeration order is the table layout. |
| FactorSpace.NthSelect | include/AIToolbox/Factored/Utils/BayesianNetwork.hpp:282-308 | The values a full state gives a tag are the assignment enumerated at their own index. |
| FactorSpace.Project | include/AIToolbox/Factored/Utils/BayesianNetwork.hpp:47-60 | The values a partial assignment gives the ids of a covered tag lie in the tag's domain. |
| FactorSpace.ProjectFull | include/AIToolbox/Factored/Utils/BayesianNetwork.hpp:36-60 | A full state covers every tag, and projecting it gives the state's own values. |
| FactorSpace.ProjectAgree | include/AIToolbox/Factored/Utils/BayesianNetwork.hpp:233-248 | Two assignments that agree on a tag project to the same values there. |
| FactorSpace.PartialFactorsEnumerator.constructor | include/AIToolbox/Factored/Utils/BayesianNetwork.hpp:282-284 | A new enumerator starts at the first assignment of its tag. |
| FactorSpace.PartialFactorsEnumerator.IsValid | include/AIToolbox/Factored/Utils/BayesianNetwork.hpp:286 | isValid holds exactly while assignments remain. |
| FactorSpace.PartialFactorsEnumerator.Current | include/AIToolbox/Factored/Utils/BayesianNetwork.hpp:299 | The current assignment is a valid assignment of the tag. |
| FactorSpace.PartialFactorsEnumerator.Advance | include/AIToolbox/Factored/Utils/BayesianNetwork.hpp:302-307 | advance moves to the next assignment. |
| FactorSpace.PartialFactorsEnumerator.Reset | include/AIToolbox/Factored/Utils/BayesianNetwork.hpp:308 | reset returns to the first assignment. |
| FactoredFunctions.AddAt | include/AIToolbox/Factored/Utils/BayesianNetwork.hpp:318-320 | Adding two bases over the same tag gives, at every full state, the sum of their values there. |
| FactoredFunctions.PlusEqual | include/AIToolbox/Factored/Utils/BayesianNetwork.hpp:318-320 | plusEqual keeps every basis well shaped and adds at most one basis. |
| FactoredFunctions.PlusEqualSum | include/AIToolbox/Factored/Utils/BayesianNetwork.hpp:318-320 | After plusEqual, the vector's value at every full state is its old value plus the added basis' value. |
| FactoredFunctions.Add2DAt | include/AIToolbox/Factored/Utils/BayesianNetwork.hpp:383-385 | Adding two matrices over the same scopes gives, at every full state and action, the sum of their values there. |
| FactoredFunctions.PlusEqual2D | include/AIToolbox/Factored/Utils/BayesianNetwork.hpp:383-385 | plusEqual on matrices keeps them well shaped and adds at most one matrix. |
| FactoredFunctions.PlusEqual2DSum | include/AIToolbox/Factored/Utils/BayesianNetwork.hpp:383-385 | After plusEqual, the matrix sum's value at every (state, action) is its old value plus the added matrix's value. |
| StateBackProjection.ParentScope | include/AIToolbox/Factored/Utils/BayesianNetwork.hpp:271-274 | The output tag is a tag that holds exactly the parents of the children of bf's tag. |
| StateBackProjection.MergeParents | include/AIToolbox/Factored/Utils/BayesianNetwork.hpp:273-274 | The merge loop computes ParentScope. |
| StateBackProjection.Expectations | include/AIToolbox/Factored/Utils/BayesianNetwork.hpp:276-309 | There is one expected value per assignment of the parent scope. |
| StateBackProjection.BackProjection | include/AIToolbox/Factored/Utils/BayesianNetwork.hpp:263-311 | The back-projection is a basis over the parent scope, with one value per assignment. |
| StateBackProjection.Expectation | include/AIToolbox/Factored/Utils/BayesianNetwork.hpp:296-303 | The inner loop returns Σ_i bf.values[i] · P(domain → i-th children assignment), and leaves rhsDomain past the end. |
| StateBackProjection.AddTerm | include/AIToolbox/Factored/Utils/BayesianNetwork.hpp:299-302 | One inner iteration extends the running sum by the current term and advances rhsDomain. |
| StateBackProjection.FillExpectations | include/AIToolbox/Factored/Utils/BayesianNetwork.hpp:281-309 | The outer loop returns exactly Expectations: entry id is the expectation at the id-th parent assignment. |
| StateBackProjection.FillSlot | include/AIToolbox/Factored/Utils/BayesianNetwork.hpp:296-308 | One outer iteration writes the current slot, advances domain, resets rhsDomain and keeps the correct prefix. |
| StateBackProjection.Store | include/AIToolbox/Factored/Utils/BayesianNetwork.hpp:304 | Writing a slot changes that slot and nothing else. |
| StateBackProjection.BackProject | include/AIToolbox/Factored/Utils/BayesianNetwork.hpp:263-311 | backProject of a basis returns BackProjection. |
| StateBackProjection.ReachMass | include/AIToolbox/Factored/Utils/BayesianNetwork.hpp:290-299 | From any parent assignment, the probabilities of the children assignments sum to 1. |
| StateBackProjection.ExpectedValueBounds | include/AIToolbox/Factored/Utils/BayesianNetwork.hpp:296-303 | If every value of bf lies in [lo, hi], so does every expected value. |
| StateBackProjection.BackProjectionBounds | include/AIToolbox/Factored/Utils/BayesianNetwork.hpp:263-311 | Every entry of the back-projection lies within bf's bounds. |
| StateBackProjection.ExpectedValueAdd | include/AIToolbox/Factored/Utils/BayesianNetwork.hpp:296-303 | The expected value is additive in the basis. |
| StateBackProjection.ExpectationsAdd | include/AIToolbox/Factored/Utils/BayesianNetwork.hpp:281-309 | The expectations table is additive in the basis, entry by entry. |
| StateBackProjection.BackProjectionAdd | include/AIToolbox/Factored/Utils/BayesianNetwork.hpp:263-311 | backProject is linear: the back-projection of x + y is the sum of the back-projections. |
| StateBackProjection.SelectAgrees | include/AIToolbox/Factored/Utils/BayesianNetwork.hpp:282-299 | The assignment a full state gives a scope agrees with the state on the scope's ids. |
| StateBackProjection.ExpectedValueLocality | include/AIToolbox/Factored/Utils/BayesianNetwork.hpp:287-299 | The expected value reads the assignment only at the parents of bf's children. |
| StateBackProjection.EvaluateProjection | include/AIToolbox/Factored/Utils/BayesianNetwork.hpp:276-309 | The back-projection's value at a full state is the expectation from that state's values on the parent scope. |
| StateBackProjection.BackProjectionAt | include/AIToolbox/Factored/Utils/BayesianNetwork.hpp:263-311 | At every full state s, the back-projection equals Σ over children assignments of bf times the probability of reaching them from s. |
| StateBackProjection.BackProjectBases | include/AIToolbox/Factored/Utils/BayesianNetwork.hpp:313-324 | The fold yields well-shaped bases, no more than the input has. |
| StateBackProjection.BackProjectVector | include/AIToolbox/Factored/Utils/BayesianNetwork.hpp:313-324 | backProject of a factored vector returns the fold BackProjectBases. |
| StateBackProjection.AddProjection | include/AIToolbox/Factored/Utils/BayesianNetwork.hpp:318-320 | One iteration adds the k-th projection into the fold of the first k bases. |
| StateBackProjection.BackProjectBasesAt | include/AIToolbox/Factored/Utils/BayesianNetwork.hpp:313-324 | At every full state, the result equals the sum of the expected values of the input's bases. |
| ActionBackProjection.ActionScope | include/AIToolbox/Factored/Utils/BayesianNetwork.hpp:329-330 | The action scope is a tag holding exactly the ids of the action tags of bf's children. |
| ActionBackProjection.MergeTableTags | include/AIToolbox/Factored/Utils/BayesianNetwork.hpp:331-332 | Merging every table's tag into acc gives a tag that holds acc and every table tag, and nothing else. |
| ActionBackProjection.StateScope | include/AIToolbox/Factored/Utils/BayesianNetwork.hpp:329-333 | The state scope is a tag holding exactly the parents, in any of their tables, of bf's children. |
| ActionBackProjection.MergeScopes | include/AIToolbox/Factored/Utils/BayesianNetwork.hpp:329-333 | The nested merge loop computes StateScope and ActionScope. |
| ActionBackProjection.ScopeAssignmentQueryable | include/AIToolbox/Factored/Utils/BayesianNetwork.hpp:329-333 | Any assignments of the two scopes can be passed to the partial query for bf's children. |
| ActionBackProjection.ScopesCoverChildren | include/AIToolbox/Factored/Utils/BayesianNetwork.hpp:329-333 | The computed scopes cover the action tags and all table parents of bf's children. |
| ActionBackProjection.ActionExpectations | include/AIToolbox/Factored/Utils/BayesianNetwork.hpp:335-338 | The matrix has sizeS rows of sizeA columns. |
| ActionBackProjection.BackProjectionActions | include/AIToolbox/Factored/Utils/BayesianNetwork.hpp:326-377 | The result is a well-shaped matrix over StateScope × ActionScope. |
| ActionBackProjection.ActionExpectation | include/AIToolbox/Factored/Utils/BayesianNetwork.hpp:359-366 | The inner loop returns Σ_i bf.values[i] · P(sDomain, aDomain → i-th children assignment). |
| ActionBackProjection.AddActionTerm | include/AIToolbox/Factored/Utils/BayesianNetwork.hpp:361-365 | One inner iteration extends the running sum by the current term. |
| ActionBackProjection.FillCell | include/AIToolbox/Factored/Utils/BayesianNetwork.hpp:359-371 | Cell (sId, aId) receives its expectation; no other cell changes. |
| ActionBackProjection.FillRow | include/AIToolbox/Factored/Utils/BayesianNetwork.hpp:349-372 | The action loop fills row sId from aId to the end and leaves every other cell alone. |
| ActionBackProjection.NextRow | include/AIToolbox/Factored/Utils/BayesianNetwork.hpp:349-374 | One state iteration fills its row, advances sDomain and restarts aDomain and aId. |
| ActionBackProjection.FillActionMatrix | include/AIToolbox/Factored/Utils/BayesianNetwork.hpp:340-375 | With aDomain and aId restarted per row, the loops fill the whole matrix with ActionExpectations. |
| ActionBackProjection.Contents | include/AIToolbox/Factored/Utils/BayesianNetwork.hpp:338 | The returned rows are the buffer's contents. |
| ActionBackProjection.FillActionMatrixAsWritten | include/AIToolbox/Factored/Utils/BayesianNetwork.hpp:340-375 | The loops as written compute row 0 correctly and leave every later row as the storage held it. |
| ActionBackProjection.BackProjectActions | include/AIToolbox/Factored/Utils/BayesianNetwork.hpp:326-377 | The corrected backProject through a FactoredDDN returns BackProjectionActions. |
| ActionBackProjection.BackProjectActionsAsWritten | include/AIToolbox/Factored/Utils/BayesianNetwork.hpp:326-377 | backProject as written has the right scopes and shape, but only row 0 equals the specification. |
| ActionBackProjection.SelectedStochastic | include/AIToolbox/Factored/Utils/BayesianNetwork.hpp:207-218 | Every table a partial action selects from a stochastic FactoredDDN is stochastic. |
| ActionBackProjection.ActionReachMass | include/AIToolbox/Factored/Utils/BayesianNetwork.hpp:361-362 | From any scope assignments, the probabilities of the children assignments sum to 1. |
| ActionBackProjection.ActionTermBounds | include/AIToolbox/Factored/Utils/BayesianNetwork.hpp:362 | Each term is bf's value scaled by a probability. |
| ActionBackProjection.ActionExpectedValueBounds | include/AIToolbox/Factored/Utils/BayesianNetwork.hpp:359-366 | If every value of bf lies in [lo, hi], so does every expected value. |
| ActionBackProjection.CellBounds | include/AIToolbox/Factored/Utils/BayesianNetwork.hpp:359-367 | Every cell lies within bf's bounds. |
| ActionBackProjection.BackProjectionActionsBounds | include/AIToolbox/Factored/Utils/BayesianNetwork.hpp:326-377 | Every entry of the matrix lies within bf's bounds. |
| ActionBackProjection.ActionTermLocality | include/AIToolbox/Factored/Utils/BayesianNetwork.hpp:362 | A term reads the action only on the children's action tags and the state only on the selected tables' parents. |
| ActionBackProjection.ActionExpectedValueLocality | include/AIToolbox/Factored/Utils/BayesianNetwork.hpp:359-366 | The same locality for the whole expected value. |
| ActionBackProjection.FullActionExpectedValue | include/AIToolbox/Factored/Utils/BayesianNetwork.hpp:220-248 | From a full state and action, the expected value equals the one under the network that the action selects. |
| ActionBackProjection.EvaluateActionProjection | include/AIToolbox/Factored/Utils/BayesianNetwork.hpp:340-375 | The matrix value at (s, a) is the cell at the indices of s's and a's values on the two scopes. |
| ActionBackProjection.CellAtFull | include/AIToolbox/Factored/Utils/BayesianNetwork.hpp:359-367 | That cell holds the expected value from the full s under the full a. |
| ActionBackProjection.BackProjectionActionsAt | include/AIToolbox/Factored/Utils/BayesianNetwork.hpp:326-377 | At every full (s, a), the matrix equals the state back-projection through the network a selects, evaluated at s. |
| ActionBackProjection.BackProjectMatrices | include/AIToolbox/Factored/Utils/BayesianNetwork.hpp:379-389 | The fold yields well-shaped matrices, no more than the input has bases. |
| ActionBackProjection.BackProjectMatrix | include/AIToolbox/Factored/Utils/BayesianNetwork.hpp:379-389 | backProject of a factored vector through a FactoredDDN returns the fold BackProjectMatrices. |
| ActionBackProjection.AddActionProjection | include/AIToolbox/Factored/Utils/BayesianNetwork.hpp:383-385 | One iteration adds the k-th projection into the fold of the first k bases. |
| ActionBackProjection.BackProjectMatricesAt | include/AIToolbox/Factored/Utils/BayesianNetwork.hpp:379-389 | At every full (s, a), the result equals the sum of the expected values of the input's bases under a's network. |
| ActionBackProjection.KeepFacts | include/AIToolbox/Factored/Utils/BayesianNetwork.hpp:326-338 | On the one-variable keep-its-value network, the scopes are [0] and [], and the intended cell (1, 0) is 1. |
| ActionBackProjection.StaleRowExample | include/AIToolbox/Factored/Utils/BayesianNetwork.hpp:348-375 | On that network, backProject as written returns 0 in cell (1, 0), where the intended value is 1. |

## Left out

- `test/MDP/QLTests.cpp` is a test of tabular Q-learning and is not part
  of this model.
- Floating point is not modelled: probabilities and values are exact
  `real`s, so rounding in the accumulations is not captured.
- Eigen's `Matrix2D` and `Vector` are not modelled as Eigen types. They
  are `seq<seq<real>>` and `seq<real>`, with their shapes stated as
  predicates.
- The uninitialised memory that `resize` hands out is the `storage`
  parameter of `BackProjectActionsAsWritten`.
- Lifetimes and aliasing of the references a DBNRef holds are not
  modelled. Nodes are immutable, so a reference is modelled by the node it
  denotes, and `DBNRef` holds node values.
- The bodies of `merge`, `factorSpacePartial`, `toIndexPartial`,
  `PartialFactorsEnumerator` and `plusEqual` are not part of this model
  (they live in other headers). Each is defined here by its documented
  behaviour:
  - `merge` is the sorted union of two tags;
  - the enumerator walks the canonical layout with the first variable
    fastest;
  - `plusEqual` adds into the first basis with the same tag, or else
    appends.
- The bodies of the `getTransitionProbability` overloads are not part of
  this model (they are not in the header). They follow their documentation
  and the library's conventions: the product over the children of each
  child's table entry, at the row of its parents' values.
- The CompactDDN constructor and the `operator[]` and getter accessors
  have no members of their own.
  - The constructor is the datatype constructor.
  - `getDefaultTransition` and `getDiffNodes` are the fields
    `defaultTransition` and `diffs`.
  - `operator[]` is sequence indexing, whose range Dafny checks at each
    use.
- BackProjectMatrix, BackProjectMatrices, AddActionProjection and
  BackProjectMatricesAt: they model the fold of lines 379-389 over the
  corrected `BackProjectActions`. In the source the fold calls the
  FactoredDDN `backProject` as written (see Findings), so every basis
  matrix it adds keeps the stale rows beyond row 0. The model does not
  capture that fold over the as-written method.
- MakeDiffTransition: the body of `makeDiffTransition` is not in the header
  (line 177 is a declaration only). Applying the replacements of action a
  in order, so that the last replacement for a variable wins, is inferred
  from the class documentation at lines 128-136. The model also requires
  every replacement to name an existing variable; what the unseen body does
  with any other id is not modelled.
- The `size_t` counters (`id`, `sId`, `aId`, `i`) are unbounded naturals;
  sizes that would overflow `size_t` are not modelled.

## Findings

| source | as written | input that shows it | evidently intended | confidence | as-written member | corrected member |
|---|---|---|---|---|---|---|
| include/AIToolbox/Factored/Utils/BayesianNetwork.hpp:340-375 | In the FactoredDDN `backProject`, `aDomain` and `aId` are never reset when `sDomain` advances. After the first state assignment the action loop never runs again, so only row 0 of the result is computed. Every later row keeps whatever the resized matrix held. | Take one binary state variable whose table keeps its value, no action variables, and the basis that is 1 on both values. Every expected value is 1, but cell (1, 0) is never written; with storage holding 0 there, the result holds 0. | After each state assignment, reset `aDomain` and set `aId` back to 0, so that every row is filled. | not executed | ActionBackProjection.StaleRowExample | ActionBackProjection.BackProjectActions |
