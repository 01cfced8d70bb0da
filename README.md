# MultiBFConv in Dafny

A model of the tree-rewriting engine of `MultiBFConv.py`. This engine
converts Universal Dependencies trees between content-head and
function-head form. A sentence is an arena of tokens: token `i` has id
`i + 1`, a head (0 for the root), a part of speech, a relation, and two
lists of child indices. Tree construction fills these lists from the heads
(`create_tree`). Forward conversion (`convert_forward`) then walks the
tree and, at each node not labelled root, promotes the first function
word in its left list and the last one in its right list. On lists in
ascending order these are the outermost function words on each side. The
promoted word takes the node's head and the node hangs under it. Backward
conversion (`convert_backward`) is meant to undo this; see the round-trip
note under "Left out". It first repairs a node's child lists,
because conversions deeper in the tree have already moved heads, and only
then demotes the function word. `check_proj` reports whether the arcs are
projective.

The model has four modules:

- `Conll` (conll.dfy): the token record as class `Sentence`, `create_tree` and `check_proj`.
  - `tokens` holds the never-rewritten `(upos, deprel)` pairs.
  - `head`, `leftChild` and `rightChild` are per-token columns that the methods reassign.
- `Rules` (rules.dfy): the `target` table and what it implies about the relations it selects.
- `Forward` (forward.dfy): `search_forward`, `change_dep_forward` and `convert_forward`.
- `Backward` (backward.dfy): `fixDependency`, `modifyDependency`, `change_dep_backward` and `convert_backward`.

Each method that changes the sentence is proved equal to a reference
function of the old state: `ForwardHeads`, `Fix`, `Repair`, `Demoted`,
`BackwardNode`. The properties the program relies on are lemmas about
those functions. `Examples` (examples.dfy) states what the functions give
on small concrete sentences, among them the "lives in Tokyo" sentence of the
design comment at MultiBFConv.py:112-135.

The model follows the code where the code and its comments disagree:

- `change_dep_backward` takes `lc[0]` on the left and `rc[-1]` on the right (MultiBFConv.py:197, 204). The comment at MultiBFConv.py:228 says the opposite ("rightmost for left children").
- `create_tree` compares the child's index with the head's id (MultiBFConv.py:40). A token at index `i` with head `h` therefore goes to the left list when `i <= h - 1`. A token that is its own head lands in its own left list.
- `check_proj` tests `c.mHead == 0`, a string compared with an integer, which is never true. The root arc is therefore scanned like any other arc.
- `sentence[int(child.mHead) - 1]` with a head of 0 reads index -1, the last token (`Backward.HeadIndex`).
- The loops over `p.mLeftChild` and `p.mRightChild` in `convert_backward` iterate the live list, so the model reads the list afresh at every step. This matters only when a deeper call changes p's own list while the loop runs.
- A failed `remove` in `fixDependency` raises `ValueError`, and the model keeps that error path (`NotInList`). `Backward.TreeNeverMissesChild` shows it is never reached from the lists `create_tree` builds: those lists are sided (left entries at most the owner's index, right entries above it), every fix keeps them sided, and every repair candidate comes from the list on its own side.

## Model

| member | source | states |
|---|---|---|
| Conll.Sentence.constructor | MultiBFConv.py:9-22 | a token record keeps the heads it was given and starts with empty child lists |
| Conll.Dependents | MultiBFConv.py:34-44 | the list `create_tree` builds for p on one side, as a function of the heads (its properties are `Conll.DependentsSpec`) |
| Conll.DependentsSpec | MultiBFConv.py:34-44 | c is among the tokens `create_tree` files under p on a side iff c's head is p's id and c <= p (left) or c > p (right); the list is ascending |
| Conll.CreateTree | MultiBFConv.py:34-44 | every child list is its old contents followed by exactly those dependents, in index order; heads are unchanged and nothing else is written |
| Conll.CreateTreeMatchesHeads | MultiBFConv.py:34-44 | built from empty lists, c is in p's left (right) list iff head[c] = p + 1 and c <= p (c > p); tokens with head 0 are in no list; every list ascends |
| Conll.MatchedListsSided | MultiBFConv.py:34-44 | lists that match the heads, as `create_tree` builds them, are sided: every left entry of p is at most p, every right entry above p |
| Conll.Crosses | MultiBFConv.py:53-64 | the test of `check_proj` for one arc and one scanned token: the arc is not of length 1, the token lies in the scanned range, and its head is outside the arc's span |
| Conll.Projective | MultiBFConv.py:47-65 | no arc has a crossing token: the condition `check_proj` reports as 1 |
| Conll.CheckProj | MultiBFConv.py:47-65 | returns only 0 or 1, changes nothing, and returns 1 iff no arc of length other than 1 has a scanned token whose head lies outside the arc's closed span |
| Rules.IsFunctionWord | MultiBFConv.py:96-102 | membership of (upos, deprel) in the seven-pair table `Target` (`self.target`), the test at :154, :196 and :203 |
| Rules.FunctionWordRelations | MultiBFConv.py:96-102 | a token the table selects has relation case, mark or dep, so never root and never mwe |
| Forward.FirstTarget | MultiBFConv.py:151-156 | the result is -1 or one of the given children |
| Forward.FirstTargetIsFirst | MultiBFConv.py:151-156 | -1 iff no child is a function word; otherwise the result is a function word and every child before it is not |
| Forward.SearchForward | MultiBFConv.py:151-156 | the loop returns the first function word in the order given, or -1 iff there is none |
| Forward.Reverse | MultiBFConv.py:140 | `reversed(xs)`: the same length, element i is element n-1-i of xs |
| Forward.ForwardRotation | MultiBFConv.py:146-149 | under a non-root parent the child takes the parent's head and the parent hangs under the child, no other head moves; under a root parent nothing changes |
| Forward.ChangeDepForward | MultiBFConv.py:146-149 | writes only the head column, leaving it as the rotation of the old heads |
| Forward.TreeListsRanked | MultiBFConv.py:34-44 | the lists `create_tree` builds from the heads of a tree never lead back to a node, so the forward recursion terminates |
| Forward.ForwardHeads | MultiBFConv.py:106-141 | the conversion keeps the number of tokens and keeps every head in 0..n |
| Forward.ForwardList | MultiBFConv.py:108-139 | converting the children of a list in turn keeps every head in 0..n |
| Forward.ConvertForward | MultiBFConv.py:106-141 | writes only heads, never a child list; the new heads are the reference conversion, whose right rotation sees the head left by the left rotation |
| Forward.ConvertList | MultiBFConv.py:108-139 | the list comprehension converts each child in stored order, leaving the reference result |
| Forward.ForwardFrame | MultiBFConv.py:106-141 | no token outside p's subtree changes its head |
| Forward.ForwardListFrame | MultiBFConv.py:108-139 | converting a list of children moves no token outside their subtrees |
| Forward.ForwardKeepsRoot | MultiBFConv.py:106-149 | a root-labelled token that is no one's child keeps its head through conversion |
| Forward.ForwardListKeepsRoot | MultiBFConv.py:108-139 | the same for the conversion of a list of children |
| Forward.SubtreeRank | MultiBFConv.py:106-141 | every token of p's subtree has rank at most p's, so p is in none of its children's subtrees |
| Forward.SubtreesRank | MultiBFConv.py:108-139 | every token in the subtrees of p's children has rank below p's |
| Forward.ForwardAtNode | MultiBFConv.py:106-141 | at node p (not labelled root) p ends under t2 when the reversed right search finds t2, else under t1 when the left search finds t1, else keeps its head; t2 takes p's head as the left rotation left it (t1's id, or p's old head); a root-labelled p keeps its head |
| Forward.ForwardLeftTarget | MultiBFConv.py:106-141 | at a node not labelled root, the left children are converted before the left rotation: the left function word takes p's original head, and keeps it unless it is the right function word or lies under a right child |
| Backward.SideOf | MultiBFConv.py:256-261 | the side of top on which a token lies: right iff top's id is below the token's id |
| Backward.ListOf | MultiBFConv.py:249-251 | p's child list on the given side, as `side is "L"` selects |
| Backward.NonMwe | MultiBFConv.py:164 | the candidate filter returns in-range indices and never grows the list |
| Backward.NonMweMembers | MultiBFConv.py:164 | x is a candidate iff x is in the list and is not labelled mwe |
| Backward.RemoveFirst | MultiBFConv.py:257 | `list.remove` shortens the list by one and adds nothing |
| Backward.RemoveFirstShape | MultiBFConv.py:257 | `list.remove` cuts the list at the first occurrence: the entries before and after it keep their order |
| Backward.RemoveFirstCount | MultiBFConv.py:257 | exactly one occurrence of the removed index goes |
| Backward.Fix | MultiBFConv.py:255-264 | a successful fix keeps all heads, every head in 0..n and every list entry in range |
| Backward.FixOutcome | MultiBFConv.py:255-264 | fails iff bottom is missing from top's list on bottom's side, with that error, and never touches another token's lists |
| Backward.FixMovesSlot | MultiBFConv.py:255-264 | top's lists lose one bottom and gain one mid, appended at the end of the list on mid's side |
| Backward.FixSided | MultiBFConv.py:255-264 | a successful fix keeps the lists sided: the removal only drops an entry and mid joins the list its position selects |
| Backward.FixKeepsRest | MultiBFConv.py:255-264 | when bottom is in top's list on its own side the fix succeeds and the rest of that list stays in it |
| Backward.FixDependency | MultiBFConv.py:255-264 | the in-place remove and append leave the reference result, or report the failed `remove` and change nothing |
| Backward.HeadIndex | MultiBFConv.py:247 | the token `sentence[int(child.mHead) - 1]`: the head token, or the last token for head 0 |
| Backward.Repair | MultiBFConv.py:242-247 | the repair loop keeps every head in 0..n and every list entry in range |
| Backward.RepairFrame | MultiBFConv.py:242-247 | the repair changes no head and no list but the parent's |
| Backward.RepairSlots | MultiBFConv.py:242-247 | each candidate no longer under the parent leaves the parent's lists and its head token joins them; nothing else enters or leaves |
| Backward.NonMweSub | MultiBFConv.py:164 | the candidates, as a multiset, are contained in the list they are filtered from |
| Backward.StaleFixOk | MultiBFConv.py:243-247 | on sided lists the fix for a stale candidate from p's list on one side succeeds, keeps the lists sided and leaves the other candidates in that list |
| Backward.RepairOk | MultiBFConv.py:242-247 | on sided lists, with candidates drawn from p's list on one side, the repair never fails and keeps the lists sided |
| Backward.RepairNoStale | MultiBFConv.py:242-243 | when every candidate still hangs under the parent, nothing changes |
| Backward.ModifyDependency | MultiBFConv.py:241-251 | the loop leaves the reference repair; the returned candidates are the parent's current list on that side without mwe |
| Backward.Reattach | MultiBFConv.py:208-209 | setting the children's heads one by one keeps heads in range |
| Backward.ReattachSpec | MultiBFConv.py:208-209 | exactly the listed tokens take the new head; the rest keep theirs |
| Backward.Demoted | MultiBFConv.py:207-238 | the demotion keeps heads in range |
| Backward.DemotedSpec | MultiBFConv.py:207-238 | the parent hangs under top; every other child, top included, takes the parent's old head; no other token moves |
| Backward.ChangeDepBackward | MultiBFConv.py:207-238 | the loop and final assignment write only heads and leave the demotion of the old heads |
| Backward.NewHead | MultiBFConv.py:196-204 | the new head is a candidate: `lc[0]` on the left, `rc[-1]` on the right |
| Backward.BackwardNode | MultiBFConv.py:161-204 | a successful conversion keeps every head in 0..n and every list entry in range |
| Backward.BothSides | MultiBFConv.py:161-204 | the left half then the right half, on the state the left half left; keeps every head in 0..n and every list entry in range |
| Backward.BackwardSide | MultiBFConv.py:163-204 | children converted, lists repaired, demotion only for a function word with a non-mwe candidate; keeps every head in 0..n and every list entry in range |
| Backward.BackwardChildren | MultiBFConv.py:163 | converting the live child list keeps every head in 0..n and every list entry in range |
| Backward.ConvertBackward | MultiBFConv.py:161-204 | the in-place conversion ends in the reference result, or reports the same failure |
| Backward.ConvertSide | MultiBFConv.py:163-204 | one side of the method ends in the reference result for that side |
| Backward.ConvertChildren | MultiBFConv.py:163 | the loop over the live list ends in the reference result |
| Backward.ConvertChild | MultiBFConv.py:163 | one iteration advances the reference by one child, or fails as it does |
| Backward.SideEffects | MultiBFConv.py:195-204 | after its children are done, a side moves only p and p's non-mwe children on that side, which take p's head; when p is demoted every candidate other than p takes p's head; nobody moves unless p is a function word with a non-mwe candidate after the repair, and then p hangs under `lc[0]` (left) or `rc[-1]` (right) of those candidates |
| Backward.NodeKeepsMwe | MultiBFConv.py:161-204 | backward conversion never moves the head of a token labelled mwe |
| Backward.BothKeepMwe | MultiBFConv.py:161-204 | the same for both halves of one node |
| Backward.SideKeepsMwe | MultiBFConv.py:163-204 | the same for one side of one node |
| Backward.ChildrenKeepMwe | MultiBFConv.py:163 | the same for the conversion of a child list |
| Backward.NodeSided | MultiBFConv.py:161-204 | on sided lists backward conversion keeps them sided and fails only by running out of fuel, never with a missing child |
| Backward.BothSided | MultiBFConv.py:161-204 | the same for both halves of one node |
| Backward.SideSided | MultiBFConv.py:163-204 | the same for one side of one node, using that the repair candidates come from p's list on that side |
| Backward.ChildrenSided | MultiBFConv.py:163 | the same for the conversion of a child list |
| Backward.TreeNeverMissesChild | MultiBFConv.py:255-264 | started on lists that match the heads, backward conversion never hits the `ValueError` of a failed `remove`; its only failure is running out of fuel |
| Examples.LivesTree | MultiBFConv.py:34-44 | "lives in Tokyo" with heads [0, 3, 1] gets lists lives: right [Tokyo], Tokyo: left [in] |
| Examples.LivesForward | MultiBFConv.py:112-135 | forward conversion from the root gives the heads [0, 1, 2]: in under lives, Tokyo under in |
| Examples.RootNotRotated | MultiBFConv.py:146-149 | under a root-labelled parent the function word is not rotated |
| Examples.InTokyoFacts | MultiBFConv.py:96-102 | "in" is a function word and neither token is mwe |
| Examples.TokyoLeaf | MultiBFConv.py:161-204 | a leaf that is not a function word is left alone |
| Examples.InTokyoBackward | MultiBFConv.py:195-204 | the function word is demoted under its one candidate, which takes its head |
| Examples.InTokyoLists | MultiBFConv.py:34-44 | with heads [2, 0], Tokyo's left list is [in] and every other list is empty |
| Examples.InTokyoForward | MultiBFConv.py:106-141 | forward conversion from Tokyo gives the heads [0, 1]: in takes Tokyo's head and Tokyo hangs under in |
| Examples.InTokyoRebuilt | MultiBFConv.py:34-44 | rebuilt from the heads [0, 1], in's right list is [Tokyo] and every other list is empty |
| Examples.InTokyoRoundTrip | MultiBFConv.py:161-204 | forward conversion, rebuilt lists, then backward conversion give back the heads [2, 0] |
| Examples.LivesFix | MultiBFConv.py:255-264 | the root's right list [in] becomes [Tokyo] once in hangs under Tokyo |
| Examples.LivesRepair | MultiBFConv.py:242-247 | the repair loop makes that fix for the stale candidate |

## Left out

- `conllu_reader`, `Conllu.print_all` and the `__main__` driver are not part of this model. They are file input, printing and argument handling. The driver's loop that starts a conversion at each root-labelled token is left out too.
- The "F" branch of `modifyDependency` is not modelled. Its only callers are commented out.
- Python identity tests (`is not -1`, `is "F"`, `is "L"`) are modelled as value equality.
- Heads and ids are modelled as integers. Python compares and copies them as decimal strings, and the two agree as long as the strings carry no leading zeros.
- A head outside 0..n is excluded by the preconditions (`WellFormed`). The head-0 case of `sentence[int(head) - 1]` is modelled.
- `Sentence.proj`, `Conllu.mParent` and the pass-through text columns (form, lemma, xpos, feats, deps, misc) are not modelled. The engine never reads them.
- Tokens are parallel columns of one `Sentence` object, not separate objects. A Python token is only ever reached by its index, so no aliasing is lost.
- The helper methods `Forward.ConvertList`, `Backward.ConvertSide`, `Backward.ConvertChildren` and `Backward.ConvertChild` split the bodies of `convert_forward` and `convert_backward` into parts. They are not functions of the source.
- `Backward.BothSides` is a layer of the reference function with no counterpart in the source.
- Backward.BackwardNode: the conversion takes a fuel budget and yields `OutOfFuel` when it runs out. Python has no budget; it recurses until done, or until the interpreter's recursion limit if the lists loop. Results with enough fuel are the Python results.
- Forward.ConvertForward: the conversion needs a rank witness showing that the child lists do not loop. `Forward.TreeListsRanked` supplies one for lists built from a tree. Python fails with `RecursionError` on looping lists.
- Backward.ModifyDependency: on a failed `remove` the contract names the error but not the lists left behind. Python leaves the fixes done before the failure in place, and so does the method.
- Backward.ConvertBackward: on failure the contract gives the error only, not the partly converted sentence that the exception leaves behind in Python.
- Examples.InTokyoRoundTrip: the round trip is shown for this fragment only. The source promises no general round trip, and the design comments describe cases where conversion is not inverted exactly.
