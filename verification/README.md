# OpenVAF: data structures and lowering, modelled and proved

This project models the parts of the OpenVAF Verilog-A compiler where many small steps have to work
together, and proves what they are for.

- **B+-tree forest** (`BForest*.dfy`). Many ordered maps share one pool of nodes. A tree is described
  by its levels: level 0 is the root, each further level is the list of the children of the nodes
  above it, and the last one is the list of the entries. The invariant `TreeOk` says that entries
  ascend, that all leaves are at the same depth, that every separating key is the smallest key to its
  right, that every node is at least half full unless it is the right-most of its level, that the root
  is not a chain, and that no node occurs twice. A forest holds disjoint trees, and every node of the
  pool is in one of them or on the free list. The leaf capacity is a parameter of the forest: 7 for
  maps, 15 for sets.
- **List pool** (`ListBlocks.dfy`, `ListPool.dfy`). Lists live in blocks of one array, with free lists
  inside the free blocks. Every operation is the matching operation on sequences, and every other list
  of the pool keeps its contents.
- **Lowering** (`Mir.dfy`, `MirBuilder.dfy`, `Lowering*.dfy`, `Param*.dfy`). Expressions, and the bounds of
  parameters, become a graph of blocks. The graph has a small-step semantics, and the code that is
  emitted does what the expression or the bounds mean.
- **Item numbers** (`AstIds*.dfy`), **bit sets** (`BitSets.dfy`, `BitIters.dfy`, `HybridSets.dfy`),
  **binary64 text** (`Numerals.dfy`, `Ieee64*.dfy`) and the **line index** (`LineIndex*.dfy`,
  `Encodings.dfy`).

Code that changes things in place is a class or a method here too, and is proved against functions on
values; the laws are lemmas about those functions. `dafny verify dfyconfig.toml` checks everything.

## Model

| member | source | states |
|---|---|---|
| `BForestRemoveEntry.Remove` | lib/bforest/src/path.rs:475-486 | removing the entry the path is on, from any well-formed tree, leaves the old entries without that one and a tree with the whole invariant; the last entry leaves no tree and frees every node; the cursor is on the entry after it, or off the end; no other tree is touched |
| `BForestRemoveEntry.RefreshCritKey` | lib/bforest/src/path.rs:528-541 | after the first entry of a leaf is gone, the separating key above is the new first key, and the level invariant holds again |
| `BForestRemoveEntry.BalanceNodes` | lib/bforest/src/path.rs:528-569 | a tree whose leaf lost an entry gets its invariant back, including a root that is no longer needed being freed; there is no tree left exactly if no entry is left |
| `BForestRemoveEntry.Collapse` | lib/bforest/src/path.rs:543-569 | a chain of single-child roots is freed and the first node that is a leaf or has two children becomes the root; entries stay as they are |
| `BForestRemove.HealLevel` | lib/bforest/src/path.rs:577-590 | from a level where one node lost a child, every level becomes sound again and the path ends up where it was asked to |
| `BForestRemove.UnderflowedNode` | lib/bforest/src/path.rs:598-640 | a node that is too small is balanced with or merged into its right neighbour, and the levels above are healed |
| `BForestRemove.EmptyNode` | lib/bforest/src/path.rs:650-676 | an empty node is freed and unlinked, its right neighbour inherits the critical key, and the levels above are healed |
| `BForestRemove.UpdateCritKey` | lib/bforest/src/path.rs:503-522 | the separating key of the leaf is rewritten on the level where it is stored, and in the whole chain of first children below it |
| `BForestRemove.UpdateRightCritKey` | lib/bforest/src/path.rs:722-730 | the same for the right neighbour |
| `BForestInsert.Insert` | lib/bforest/src/path.rs:347-352 | inserting a missing key at the path's position gives the old entries with the new one there, keeps the whole invariant through splits up to a new root, keeps the height within the path buffers, and leaves the path on the new entry |
| `BForestInsert.TryLeafInsert` | lib/bforest/src/path.rs:356-365 | a leaf with room takes the entry, with no key to update above, since position 0 occurs in the left-most leaf only; a full leaf leaves the pool unchanged |
| `BForestInsert.SplitAndInsert` | lib/bforest/src/path.rs:392-469 | splits from a full leaf upwards end in a tree with the invariant and the path on the new entry |
| `BForestInsert.GrowRoot` | lib/bforest/src/path.rs:453-468 | a root that was split gets a new root above it, and the tree one more level |
| `BForestPath.Path.Find` | lib/bforest/src/path.rs:65-108 | a search yields the value of the key and stands on its entry, or stands between the greatest smaller and the least greater key; position 0 of a leaf only at the very front of the tree |
| `BForestPath.Path.First` | lib/bforest/src/path.rs:111-124 | stands on the first entry of the tree |
| `BForestPath.Path.Next` | lib/bforest/src/path.rs:185-203 | goes to the next entry, across any number of levels, or off the end and stays there |
| `BForestPath.Path.Prev` | lib/bforest/src/path.rs:210-236 | goes to the entry before, from off the end to the last one; stays at the first one and yields nothing there |
| `BForestPath.Path.NextNode` | lib/bforest/src/path.rs:243-265 | goes to the right neighbour of a node on any level, exactly if there is one |
| `BForestPath.Path.GotoSubtreeLast` | lib/bforest/src/path.rs:282-300 | stands on the last entry below a node |
| `BForestPath.Path.CurrentCritKey` | lib/bforest/src/path.rs:494-500 | the critical key of a node on the path; none exactly for the left-most node |
| `BForestPath.Path.RightSibling` | lib/bforest/src/path.rs:698-719 | the right neighbour of a node with its critical key, exactly if there is one |
| `BForestPath.Path.Normalize` | lib/bforest/src/path.rs:734-741 | from behind the last entry of a leaf to the next leaf's first entry, or off the end |
| `BForestOrder.InnerKeyIsLeast` | lib/bforest/src/path.rs:494-500 | in every well-formed tree each key of an inner node is the smallest key of the sub-tree to its right, and greater than all keys to the left |
| `BForestOrder.LevelsSorted` | lib/bforest/src/pool.rs:83-204 | the critical keys of every level ascend |
| `BForestHeight.HeightBound` | lib/bforest/src/lib.rs:38-43 | a tree with the invariant and at most 2^32 entries has at most 16 levels of nodes, so path buffers are never overrun |
| `BForestNode.SplitPos` | lib/bforest/src/node.rs:417-430 | a node with an even number of entries is halved in the middle, and one with an odd number such that the halves are the same size after the insertion is retried |
| `BForestNode.RemovedStatus` | lib/bforest/src/node.rs:471-483 | after a removal a node counts as too small exactly if it is less than half full and not empty, and as the right-most case if its last entry is gone |
| `BForestNode.InnerNode.TryInsert` | lib/bforest/src/node.rs:149-167 | an inner node with room takes a key and the child to its right at the position; a full one is unchanged |
| `BForestNode.LeafNode.TryInsert` | lib/bforest/src/node.rs:171-191 | a leaf with room takes a pair at the position; a full one is unchanged |
| `BForestNode.InnerNode.Split` | lib/bforest/src/node.rs:198-258 | an inner node is divided into its first and last four children, and the key between them is returned |
| `BForestNode.LeafNode.Split` | lib/bforest/src/node.rs:198-258 | a leaf is divided at the split position, and the first key of the upper part is returned |
| `BForestNode.InnerNode.Remove` | lib/bforest/src/node.rs:267-283 | a child disappears together with the key next to it, with the status of what is left |
| `BForestNode.LeafNode.Remove` | lib/bforest/src/node.rs:288-301 | a pair disappears, with the status of what is left |
| `BForestNode.InnerNode.Balance` | lib/bforest/src/node.rs:313-413 | two neighbours are merged into the right one if they fit, or share their children so that both are half full, with the new separating key; no child is lost and order is kept |
| `BForestNode.LeafNode.Balance` | lib/bforest/src/node.rs:313-413 | the same for the pairs of leaves |
| `BForestPool.NodePool.AllocNode` | lib/bforest/src/pool.rs:36-55 | a node from the free list, or a new one; all other slots keep their contents |
| `BForestPool.NodePool.FreeNode` | lib/bforest/src/pool.rs:58-63 | the node becomes the head of the free list, which stays acyclic; all other slots keep their contents |
| `BForestPool.NodePool.Search` | lib/bforest/src/lib.rs:66-69 | position of a key among ascending keys, or where it belongs |
| `BForestFreeTree.FreeTree` | lib/bforest/src/pool.rs:66-78 | frees exactly the nodes below a node, and itself |
| `BForestFreeTree.FreeWhole` | lib/bforest/src/pool.rs:66-78 | freeing from the root frees exactly the nodes of the tree and touches nothing else |
| `BForestModel.ForestStep` | lib/bforest/src/pool.rs:36-78 | an operation that replaces the nodes of one tree, and takes new ones from free slots only, keeps all other trees, their disjointness, and that every live node is in exactly one tree |
| `BForestTrees.NewTree` | lib/bforest/src/map.rs:440-447 | the first pair of an empty map makes a tree of one leaf |
| `BForestTrees.SetValue` | lib/bforest/src/path.rs:339-341 | overwriting the current value changes that entry and nothing else |
| `BForestMap.Cursor.Insert` | lib/bforest/src/map.rs:432-451 | the map is updated at the key, the old value is returned, the cursor is on the entry, and all other maps of the forest are unchanged |
| `BForestMap.Cursor.Remove` | lib/bforest/src/map.rs:541-547 | the current entry disappears and is returned, the cursor is on the one after it, and all other maps are unchanged; off the end nothing happens |
| `BForestMap.Cursor.Goto` | lib/bforest/src/map.rs:412-420 | looks up a key and stands on it, or on the next greater one |
| `BForestMap.Cursor.GotoFirst` | lib/bforest/src/map.rs:423-425 | stands on the first entry, if there is one |
| `BForestMap.Cursor.Next` | lib/bforest/src/map.rs:374-376 | steps to the next entry or off the end |
| `BForestMap.Cursor.Prev` | lib/bforest/src/map.rs:381-383 | steps to the entry before, or stays at the first |
| `BForestMap.Forest.Clear` | lib/bforest/src/map.rs:56-58 | no map and no live node is left |
| `BForestOps.Get` | lib/bforest/src/map.rs:108-110 | lookup in the finite map that the tree represents |
| `BForestOps.GetOrLess` | lib/bforest/src/map.rs:119-132 | the entry with the greatest key not above the query; none exactly if all keys are greater |
| `BForestOps.Insert` | lib/bforest/src/map.rs:228-236 | the finite map updated at the key, with the old value, and no other map changed |
| `BForestOps.Remove` | lib/bforest/src/map.rs:264-276 | the finite map without the key, with the old value, and no other map changed |
| `BForestOps.Clear` | lib/bforest/src/map.rs:279-283 | the map is empty, and exactly its nodes have become free |
| `BForestIter.Collect` | lib/bforest/src/map.rs:569-577 | iteration yields all entries once, ascending, and nothing afterwards |
| `BForestIter.CollectBackwards` | lib/bforest/src/set.rs:364-366 | backward iteration yields exactly the reverse, and nothing afterwards |
| `BForestIter.SameOrder` | lib/bforest/src/map.rs:569-577 | the order of iteration depends on the finite map only, not on the operations that built it |
| `BForestRetain.Retain` | lib/bforest/src/map.rs:290-309 | each entry is offered once, in order; the accepted ones stay, with the values the predicate left, and the finite map holds exactly these; all other maps are unchanged |
| `BForestRetain.RetainedExactly` | lib/bforest/src/map.rs:290-309 | an entry is in the result exactly if it comes from an accepted one |
| `BForestMerge.AdvanceToInsertPos` | lib/bforest/src/path.rs:131-182 | from an earlier entry, moves forward to the unique place of a key, and tells whether the key is there; a path off the end stays there |
| `BForestMerge.InsertSorted` | lib/bforest/src/map.rs:182-224 | one left-to-right pass over a strictly ascending source gives the map of applying `f` key by key: `f` of the old value where the source has the key, and the old value elsewhere |
| `BForestMerge.Merge` | lib/bforest/src/map.rs:137-155 | the same for the entries of another map, which keeps its entries, or of a copy of the map itself |
| `BForestMerge.FoldedCombines` | lib/bforest/src/map.rs:182-224 | applying `f` pair by pair and looking at every key on its own are the same |
| `ListBlocks.SClassFits` | lib/list_pool/src/lib.rs:92-101 | the class of a length is the smallest whose blocks hold the elements and the length field |
| `ListBlocks.ClassSizes` | lib/list_pool/src/lib.rs:86-94 | blocks have 4, 8, 16 and so on words |
| `ListBlocks.SClassIs` | lib/list_pool/src/lib.rs:99-101 | it is the only such class |
| `ListBlocks.NextClass` | lib/list_pool/src/lib.rs:105-107 | one more element needs a greater class exactly at the lengths that the predicate names |
| `ListPools.ListPool.Alloc` | lib/list_pool/src/lib.rs:143-161 | takes a block of the class that no list has; the array stays tiled by blocks, each owned or on one acyclic free list; the block is filled with reserved values exactly if the free list of its class was empty |
| `ListPools.ListPool.Free` | lib/list_pool/src/lib.rs:166-179 | the block heads the free list of its class, and the tiling stays |
| `ListPools.ListPool.Realloc` | lib/list_pool/src/lib.rs:198-216 | the first words move to a block of another class, the old block becomes free, and all other blocks keep their words |
| `ListPools.ListPool.Retake` | lib/list_pool/src/lib.rs:138-161 | a block that is freed and taken again is not filled with reserved values |
| `ListPools.ListPool.Commit` | lib/list_pool/src/lib.rs:61-86 | when one list has been changed in its own block, all other lists are as before, and each taken block belongs to one list |
| `ListPools.ListHandle.Push` | lib/list_pool/src/lib.rs:345-374 | appends, across any reallocation, and no other list changes |
| `ListPools.ListHandle.Grow` | lib/list_pool/src/lib.rs:379-409 | old elements stay; the new elements are all reserved values exactly if the words in their places were so before: those behind the list if it stays in its block, and otherwise those of the first block on the free list of the new class, if there is one |
| `ListPools.ListHandle.Regrow` | lib/list_pool/src/lib.rs:376-409 | growing by one brings back the element that was removed last, unless the list moved to a smaller block |
| `ListPools.ListHandle.Extend` | lib/list_pool/src/lib.rs:422-440 | appends all elements, whether or not their number was known |
| `ListPools.ListHandle.Insert` | lib/list_pool/src/lib.rs:444-459 | inserts at a position; beyond the end it appends |
| `ListPools.ListHandle.RemoveLast` | lib/list_pool/src/lib.rs:462-479 | drops the last element, moving to a smaller block where one is big enough |
| `ListPools.ListHandle.Remove` | lib/list_pool/src/lib.rs:482-496 | removes at a position, keeping the order |
| `ListPools.ListHandle.SwapRemove` | lib/list_pool/src/lib.rs:500-509 | puts the last element where one was removed |
| `ListPools.ListHandle.Truncate` | lib/list_pool/src/lib.rs:514-537 | keeps the first elements; a longer length changes nothing |
| `ListPools.ListHandle.GrowAt` | lib/list_pool/src/lib.rs:544-551 | makes room at a position: what was before and after stays before and after |
| `ListPools.ListHandle.Clear` | lib/list_pool/src/lib.rs:326-334 | the list is empty and its block is free |
| `ListPools.ListHandle.Take` | lib/list_pool/src/lib.rs:339-341 | the elements move to a new handle |
| `ListPools.ListHandle.FromSlice` | lib/list_pool/src/lib.rs:232-243 | a new list with the given elements |
| `ListPools.ListHandle.DeepClone` | lib/list_pool/src/lib.rs:303-315 | a new list with the same elements; the old one stays |
| `ListPools.ListHandle.Get` | lib/list_pool/src/lib.rs:275-277 | the element at a position, if there is one |
| `ListPools.ListHandle.Len` | lib/list_pool/src/lib.rs:254-257 | the number of elements |
| `ListPools.ListHandle.AsSlice` | lib/list_pool/src/lib.rs:266-272 | exactly the elements, read from the array |
| `LoweringCorrect.LowRuns` | openvaf/hir_lower/src/expr.rs:26-76 | for any nesting of expressions, and however the function is completed, running from the entry reaches the tail block with the value of the expression, makes exactly the calls of the evaluation in order, and changes no older value |
| `LoweringWhole.ExprFromEntry` | openvaf/hir_lower/src/expr.rs:26-76 | lowered into an empty function and run from its entry, any well-typed expression yields its value with the calls of its evaluation, and the graph is in order |
| `LoweringCases.TypedFromEntry` | openvaf/hir_lower/src/expr.rs:26-76 | lowered and run from the entry, a well-typed expression yields data of its type, with integers of 32 bits, and never an undefined value |
| `LoweringCases.InfinityFromEntry` | openvaf/hir_lower/src/expr.rs:62-69 | lowered and run from the entry, `inf` yields the infinite real number or 2147483647, and `-inf` minus infinity or -2147483648, also with a recorded cast |
| `LoweringCases.NegationFromEntry` | openvaf/hir_lower/src/expr.rs:85-98 | any other negation yields the additive inverse, for integers modulo 2^32 |
| `LoweringWhole.ParamFromEntry` | openvaf/hir_lower/src/parameters.rs:86-144 | lowered into an empty function and run from its entry, a parameter gets the given value or the default, and `invalid` is called once if the bounds reject that value and not at all otherwise |
| `LoweringCases.RealRangeFromEntry` | openvaf/hir_lower/src/parameters.rs:359-385 | run from the entry, a real parameter with a bound from a number to infinity is reported exactly if it is outside or not a number, for all four kinds of ends |
| `LoweringCases.IntRangeFromEntry` | openvaf/hir_lower/src/parameters.rs:359-385 | the same for an integer parameter and a range between two integers that is required or excluded |
| `LoweringCorrect.SelectRuns` | openvaf/hir_lower/src/ctx.rs:260-300 | only the selected branch runs, and the phi yields its value |
| `LoweringCorrect.UnaryRuns` | openvaf/hir_lower/src/expr.rs:79-102 | unary operators and the mathematical functions of one argument yield their meaning, with the literal infinity negated specially |
| `LoweringCorrect.BooleanRuns` | openvaf/hir_lower/src/expr.rs:107-118 | short-circuit or and and: the right operand is evaluated only when it decides |
| `LoweringCorrect.BinaryRuns` | openvaf/hir_lower/src/expr.rs:119-180 | both operands are evaluated left to right, and the result is the meaning of the operator; so for `atan2`, `hypot` and `pow` |
| `LoweringCorrect.AbsRuns` | openvaf/hir_lower/src/expr.rs:266-283 | the code for `abs` yields the absolute value as defined |
| `LoweringCorrect.ExtremeRuns` | openvaf/hir_lower/src/expr.rs:391-404 | the code for `min` and `max` yields the first operand if the comparison holds and the second otherwise |
| `Lowering.OpcodeMeans` | openvaf/hir_lower/src/expr.rs:120-175 | the opcode chosen for an operator and operand type computes the operator's meaning, also on values that are not numbers |
| `Lowering.AbsIs` | openvaf/hir_lower/src/expr.rs:266-283 | `abs` is the absolute value of a 32-bit integer exactly if it is not the smallest one; on reals it is never negative |
| `LoweringMeaning.TypePreserved` | openvaf/hir_lower/src/expr.rs:26-180 | the value of every well-typed expression is data of its type |
| `LoweringMeaning.ConnectivesAre` | openvaf/hir_lower/src/expr.rs:107-118 | on truth values the connectives are or, and, not, and a conditional expression takes the branch of its condition; with the operands that are evaluated |
| `LoweringMeaning.ComparisonsAre` | openvaf/hir_lower/src/expr.rs:391-404 | on integers and finite reals comparisons, `min` and `max` are those of the numbers; a number that is not one compares with nothing |
| `LoweringMeaning.ArithmeticIs` | openvaf/mir_interpret/src/lib.rs:152-154 | sums, differences, products and negations of integers are right modulo 2^32 and in the 32-bit range |
| `LoweringMeaning.LessIsOrder` | openvaf/mir_interpret/src/lib.rs:171-174 | the order of reals is strict and total but for NaN, with every finite number between the infinities |
| `LoweringMeaning.NegFIs` | openvaf/mir_interpret/src/lib.rs:120 | negation of reals is an involution and the additive inverse |
| `LoweringWhole.ComplementFromEntry` | openvaf/hir_lower/src/expr.rs:79-83 | lowered and run from the entry, `~` yields the negation of a 32-bit integer, which is never its bitwise complement |
| `LoweringRuns.LowBuilt` | openvaf/hir_lower/src/ctx.rs:270-300 | lowering only appends to the current block and to new blocks; all older blocks and constants stay |
| `LoweringGraph.LowKept` | openvaf/hir_lower/src/ctx.rs:270-300 | lowering keeps terminators last, gives each phi edges from exactly the predecessors of its block, and adds no edge to an older block |
| `LoweringGraph.CondKept` | openvaf/hir_lower/src/ctx.rs:270-300 | the block where two branches meet has exactly the two tails as predecessors |
| `LoweringMethods.LowerExpr` | openvaf/hir_lower/src/expr.rs:26-76 | the step-by-step builder emits the code of the specification |
| `LoweringMethods.MakeCond` | openvaf/hir_lower/src/ctx.rs:270-300 | opens, fills and joins the branches as specified, and reports their tails |
| `LoweringMethods.LowerSelectWith` | openvaf/hir_lower/src/body.rs:42-56 | a condition followed by one phi |
| `LoweringMethods.LowerBinOp` | openvaf/hir_lower/src/expr.rs:107-180 | the step-by-step form of operators emits the code of the specification |
| `ParamBounds.CheckParam` | openvaf/hir_lower/src/parameters.rs:323-407 | the loop over the bounds emits the code of the specification, for both kinds of bounds |
| `ParamBounds.CheckBounds` | openvaf/hir_lower/src/parameters.rs:93-113 | both checks one after the other, with a shared exit |
| `ParamBoundsRuns.TestRuns` | openvaf/hir_lower/src/parameters.rs:351-385 | the condition computed for a bound is true exactly if the bound contains the parameter |
| `ParamBoundsRuns.BoundsRun` | openvaf/hir_lower/src/parameters.rs:333-388 | bounds are looked at in order up to the first that contains the parameter, which leads to the exit |
| `ParamChecks.ChecksRun` | openvaf/hir_lower/src/parameters.rs:93-113 | on every path the checks of any list of bounds reach the shared exit, and make exactly the calls of the report |
| `ParamReports.ReportedOnce` | openvaf/hir_lower/src/parameters.rs:390-407 | `invalid` is called once if some `from` bound exists and none contains the value, or some `exclude` bound contains it, and otherwise not at all |
| `ParamReports.RejectedSteady` | openvaf/hir_lower/src/parameters.rs:333-407 | when callbacks have no memory, the verdict depends on each bound by itself, in no order |
| `ParamInit.ParamRuns` | openvaf/hir_lower/src/parameters.rs:86-144 | the initial value is the given one or the default, and that value has been checked |
| `ParamGraph.ChecksKept` | openvaf/hir_lower/src/parameters.rs:323-407 | the code of the checks keeps terminators last and adds no edge to an older block |
| `ParamGraph.ParamKept` | openvaf/hir_lower/src/parameters.rs:86-144 | so does the code for a parameter, and its phi has edges from exactly the predecessors of its block |
| `ParamBounds.InitParam` | openvaf/hir_lower/src/parameters.rs:86-144 | the step-by-step form emits the code of the specification |
| `AstIds.AstIdMap.FromSource` | openvaf/basedb/src/ast_id_map.rs:109-123 | the queue of layers, drained in order, numbers the items as specified, and ends |
| `AstIdsLookup.BuildMap` | openvaf/basedb/src/ast_id_map.rs:109-123 | the finished map of any tree: each item once, its parent the nearest item above with a smaller number, outer layers first, and each layer in document order |
| `AstIds.AstIdMap.Walk` | openvaf/basedb/src/ast_id_map.rs:221-233 | one preorder walk that skips the insides of items numbers the items it meets and queues their children |
| `AstIds.AstIdMap.Alloc` | openvaf/basedb/src/ast_id_map.rs:191-207 | the next number, with its parent |
| `AstIdsLayers.NumberingComplete` | openvaf/basedb/src/ast_id_map.rs:215-238 | every item gets exactly one number, its parent is the nearest item above it with a smaller number, outer layers have smaller numbers, and within a layer numbers follow the order of the document |
| `AstIdsOrder.FrontCount` | openvaf/basedb/src/ast_id_map.rs:221-233 | a walk finds each item that has no other item above it within the walk exactly once, and no others |
| `AstIdsOrder.FrontOrdered` | openvaf/basedb/src/ast_id_map.rs:221-233 | a walk from places in document order finds items in document order |
| `AstIdsStable.NumbersStable` | openvaf/basedb/src/ast_id_map.rs:112-115 | changing the insides of items of layer `k` changes no number, kind or parent of items down to layer `k` |
| `AstIdsLookup.NearestAstIdToNode` | openvaf/basedb/src/ast_id_map.rs:146-151 | the number of the innermost item at or above a node, or none exactly if there is none; the lookup never fails |
| `AstIdsLookup.LintLvl` | openvaf/basedb/src/lint_attrs.rs:52-59 | the walk along the parents ends, and yields the level of the innermost item around an item that sets one |
| `AstIdsLookup.LevelMeans` | openvaf/basedb/src/lint_attrs.rs:52-59 | parents have smaller numbers, and following them finds the innermost item around an item that sets a level |
| `BitSets.Bitwise` | lib/bitset/src/lib.rs:473-490 | applies an operation word by word, and tells exactly whether a word changed |
| `BitSets.BitSet.Insert` | lib/bitset/src/lib.rs:131-138 | inserts, and tells whether the element is new |
| `BitSets.BitSet.Remove` | lib/bitset/src/lib.rs:157-164 | removes, and tells whether the element was there |
| `BitSets.BitSet.Union` | lib/bitset/src/lib.rs:340-344 | the union, and whether the set changed |
| `BitSets.BitSet.Subtract` | lib/bitset/src/lib.rs:349-353 | the difference, and whether the set changed |
| `BitSets.BitSet.Intersect` | lib/bitset/src/lib.rs:180-182 | the intersection, and whether the set changed |
| `BitSets.BitSet.Superset` | lib/bitset/src/lib.rs:119-121 | true exactly for subsets |
| `BitSets.BitSet.InsertAll` | lib/bitset/src/lib.rs:141-146 | all indices below the domain size and none beyond |
| `BitSets.BitSet.ClearExcessBits` | lib/bitset/src/lib.rs:78-85 | drops exactly the bits beyond the domain |
| `BitSets.BitSet.ReverseUnionSparse` | lib/bitset/src/lib.rs:213-245 | the union with a sorted list, and whether the set had an element that is not in the list, also in words that the loop skips |
| `BitIters.BitIter.Next` | lib/bitset/src/lib.rs:452-469 | the least element still to come, or none, now and later |
| `BitIters.Collect` | lib/bitset/src/lib.rs:191-193 | iteration is ascending, without repeats, and complete |
| `BitIters.Count` | lib/bitset/src/lib.rs:106-108 | the number of one bits is the number of elements |
| `HybridSets.SparseBitSet.Insert` | lib/bitset/src/sparse.rs:84-99 | inserts in order, keeping the list sorted and at most eight long |
| `HybridSets.SparseBitSet.Remove` | lib/bitset/src/sparse.rs:107-114 | removes, keeping the list sorted |
| `HybridSets.HybridBitSet.Insert` | lib/bitset/src/hybrid.rs:133-156 | inserts, changing to a bit set when the list is full, and tells whether the element is new |
| `HybridSets.HybridBitSet.Remove` | lib/bitset/src/hybrid.rs:167-173 | removes, and tells whether the element was there |
| `HybridSets.HybridBitSet.Union` | lib/bitset/src/hybrid.rs:226-265 | the union for every pair of representations, and whether the set changed |
| `HybridSets.HybridBitSet.Subtract` | lib/bitset/src/hybrid.rs:298-316 | the difference for every pair of representations, and whether the set changed |
| `HybridSets.HybridBitSet.Intersect` | lib/bitset/src/hybrid.rs:202-219 | the intersection for every pair of representations |
| `HybridSets.HybridBitSet.Superset` | lib/bitset/src/hybrid.rs:103-110 | true exactly for subsets, for every pair of representations |
| `HybridSets.HybridBitSet.Collect` | lib/bitset/src/hybrid.rs:195-200 | ascending, without repeats, and complete |
| `HybridSets.ToHybrid` | lib/bitset/src/lib.rs:196-206 | the same set, sparse exactly if it has at most eight elements |
| `Ieee64Text.RoundTrip` | lib/stdx/src/ieee64.rs:26-86 | printing and parsing returns the same bits for every bit pattern, with signed zeros, subnormal numbers, infinities and all NaN payloads |
| `Ieee64Text.ParsesExactly` | lib/stdx/src/ieee64.rs:146-245 | a well-formed hexadecimal number is never rounded: the bits denote exactly the number in the text, or parsing fails because no bits do, or because there is no digit, or more than 16 |
| `Ieee64Text.AcceptedForm` | lib/stdx/src/ieee64.rs:146-190 | whatever is accepted after `0x` is a well-formed hexadecimal number |
| `Ieee64Special.SpecialExact` | lib/stdx/src/ieee64.rs:107-145 | every text without `0x` after its sign is accepted exactly if it is zero, infinity, or a NaN with a payload of at most 51 bits (not zero for a signaling one), and the bits are what it names |
| `Ieee64Special.Accepted` | lib/stdx/src/ieee64.rs:95-245 | every text is a sign and a body; accepted texts are hexadecimal numbers or named values |
| `Ieee64Special.SpecialPrinted` | lib/stdx/src/ieee64.rs:44-81 | zeros, infinities and NaNs are printed by name, infinities and NaNs always with a sign, NaNs with their payload unless quiet with none |
| `Ieee64Special.DigitTable` | lib/stdx/src/ieee64.rs:174-184 | the 22 characters that are hexadecimal digits, in both cases, with their values; lower case is printed |
| `Ieee64Special.ParseI16Is` | lib/stdx/src/ieee64.rs:163-173 | an exponent is an optional sign of either kind and digits, whose signed value has to fit in 16 bits |
| `Ieee64Special.NoLeadingZero` | lib/stdx/src/ieee64.rs:72-84 | payloads and exponents are printed without leading zeros |
| `Ieee64Special.Anchors` | lib/stdx/src/ieee64.rs:38-46 | the bits of one, minus one, the smallest positive and the greatest finite number mean these numbers |
| `Ieee64Text.FormDenotes` | lib/stdx/src/ieee64.rs:49-85 | what is printed for a finite number is a hexadecimal number that denotes it exactly |
| `Ieee64Text.SignificandFits` | lib/stdx/src/ieee64.rs:176-183 | sixteen digits fit in the 64-bit significand |
| `Ieee64Exact.DecodeUnique` | lib/stdx/src/ieee64.rs:38-46 | different bit patterns mean different things |
| `Ieee64Exact.NormalizeExact` | lib/stdx/src/ieee64.rs:203-217 | normalizing keeps the value, and fails only for values with more than 53 significant bits |
| `Ieee64Exact.EncodeExact` | lib/stdx/src/ieee64.rs:219-244 | encoding keeps the value, and fails only for values that no bits denote |
| `Ieee64.ScanHexadecimal` | lib/stdx/src/ieee64.rs:148-190 | the loop over the characters reads what the specification reads |
| `LineIndex.New` | openvaf/basedb/src/line_index.rs:81-120 | one pass over the characters records the start of every line and the characters outside ASCII of every line |
| `Encodings.Utf8Back` | openvaf/basedb/src/line_index.rs:90-93 | the length counted for a character is the number of its bytes in UTF-8, which decode to it |
| `Encodings.Utf8Shortest` | openvaf/basedb/src/line_index.rs:90-93 | no shorter sequence of bytes decodes to the character |
| `Encodings.Utf16Back` | openvaf/basedb/src/line_index.rs:43-57 | the length counted for a character in UTF-16 is the number of its units, one or a surrogate pair, which decode to it |
| `Encodings.TextLengths` | openvaf/basedb/src/line_index.rs:81-120 | lengths of texts are the numbers of their bytes and units |
| `LineIndexCorrect.LineColCounts` | openvaf/basedb/src/line_index.rs:122-139 | at every position the line is the number of newlines before it and the column the length of the text since the last one |
| `LineIndexCorrect.LastLineIs` | openvaf/basedb/src/line_index.rs:94-106 | the text that a column measures has no newline in it and follows one, or starts the text |
| `LineIndexCorrect.OffsetBack` | openvaf/basedb/src/line_index.rs:134-143 | line and column of any offset lead back to the offset, and the offset is in that line |
| `LineIndexCorrect.LineColBack` | openvaf/basedb/src/line_index.rs:134-143 | a line and a column inside it are found again from their offset |
| `LineIndexCorrect.LineRanges` | openvaf/basedb/src/line_index.rs:127-132 | the range of a line holds the offsets of that line, and the ranges follow each other to the end of the text |
| `LineIndexCorrect.ColumnsBack` | openvaf/basedb/src/line_index.rs:145-198 | at every character the UTF-16 column counts the UTF-16 units since the last newline, and converting it back gives the UTF-8 column |
| `LineIndexCorrect.RangeSplit` | openvaf/basedb/src/line_index.rs:155-166 | a range is split into non-empty pieces that follow each other, each inside one line |
| `LineIndex.Utf8ToUtf16Col` | openvaf/basedb/src/line_index.rs:168-182 | the loop over the characters of a line computes the specified column |
| `LineIndex.Utf16ToUtf8Col` | openvaf/basedb/src/line_index.rs:184-198 | the loop over the characters of a line computes the specified column |

## Findings

Places where the code does not do what its comments or its name promise. The code is modelled as it is.

| promise | input that breaks it | it holds exactly if | members |
|---|---|---|---|
| `abs` of an integer is its absolute value (openvaf/hir_lower/src/expr.rs:266-283) | -2147483648, whose result is itself | the integer is not -2147483648 | `Lowering.AbsIs` |
| `~` is the bitwise complement (openvaf/hir_lower/src/expr.rs:83) | every integer: the code emits a negation | never | `LoweringWhole.ComplementFromEntry` |
| a block from the pool is filled with reserved values (lib/list_pool/src/lib.rs:138-142) | a block that was freed before | the free list of the class is empty | `ListPools.ListPool.Alloc`, `ListPools.ListPool.Retake` |
| growing a list adds reserved values (lib/list_pool/src/lib.rs:376) | remove the last of three elements, then grow by one: the removed element is back | the words behind the list are reserved (same class), or the free list of the new class is empty or its first block has reserved values in the places of the new elements (empty list, or another class): `ListPools.ReservedAhead` on the state before | `ListPools.ListHandle.Grow`, `ListPools.ListHandle.Regrow` |

Two preconditions are the code's own: the union of a hybrid set needs a domain that is not empty
(`HybridSets.HybridBitSet.Union`; the loop in lib/bitset/src/lib.rs:213-245 indexes the first word), and a range
bound needs a numeric type (`ParamBounds.InBound`; openvaf/hir_lower/src/parameters.rs:38-44 unwraps the comparison).

## Left out

- Keys are integers in their usual order; other comparators are not part of this model.
- `PackedOption` is an ordinary option. Sizes in nodes and paths are unbounded numbers; the marker 0xff for an emptied node is kept.
- Indices of pools and lists are unbounded; that they fit in 32 bits is a precondition on the number of entries for trees, and left out for lists.
- A neighbour is balanced in place, while the source copies it out of the pool and back.
- Closures passed to `retain` and `merge` are functions of the number of the call, so that they may have a state.
- The set types of lib/bforest/src/set.rs: the same tree with leaf capacity 15 and no values; their wrappers only add easy members.
- `get_or_insert_with` and `update_or_insert_with`: a lookup followed by an insertion.
- Two maps or handles with the same root, except for merging a map with a copy of itself: a map or list is owned by one object.
- Element conversions in lists are the identity. `mut_slices`, iterators and `from_iter` are left out.
- ListPools.ListHandle.GrowAt: says nothing about the elements in the gap, which the source leaves open.
- Lowering.Eval: integer division, shifts, bitwise operators, real arithmetic, mathematical functions, casts and callbacks are parameters of the machine; their results are the same on both sides. `~` has the meaning the code gives it.
- Lowering: `Float` has real numbers without rounding, infinities and one NaN, and no signed zero; so `abs` of negative zero is not covered.
- LoweringCorrect.LowRuns: user functions, arrays, and the remaining built-in functions (`limexp`, noise, display, `ddt` and others) are not expression forms.
- LoweringWhole.ExprFromEntry: the same forms are missing.
- LoweringMethods.LowerExpr: the same forms are missing.
- Lowering: statements are left out; variables and parameters are values that exist already. SSA construction, sealing of blocks and source locations are left out.
- Parameters: the minimum and maximum computed in advance (openvaf/hir_lower/src/parameters.rs:154-308), and bounds of array parameters.
- `lower_multi_select` (openvaf/hir_lower/src/body.rs:69-80): several phis instead of one.
- Item numbers: nodes are identified by their position in the tree, while the source takes the first entry with an equal pointer of range and kind. Which kinds have entries is a flag of the node. Attributes are left out.
- Bit sets: a 64-bit word is the set of the positions of its one bits, so that `|`, `&`, `!` and `^` are set operations. Sets with different domains, growable sets, matrices, `clone_from` and printing are left out.
- Binary64: only the parameters of binary64 (11 and 52) of the general format; bit fields are put together by addition instead of bitwise or.
- Line index: texts may be longer than 32-bit offsets allow.
- MIR optimisations, diagnostics, the database, `melange` and the code generators are not part of this model.
