# Family tree layout, modelled in Dafny

Family-Tree-PHP draws a family tree as SVG. The class `FamilyTree`
(classes/FamilyTree.php) keeps two things:

- a member table, keyed by id in insertion order;
- an append-only list of relations: `child` (from = parent, to = child), `spouse` and `sibling`.

`render()` lays the tree out and then draws it. The layout runs in three steps:

- It infers a generation (row index) for every member, using a fixed-point loop of at most 8 passes.
- It places each generation's members left to right in ascending id order.
- It adjusts those positions:
  - each spouse pair is pulled to 40 apart around its midpoint;
  - each row gets a left-to-right sweep that keeps boxes 120 apart;
  - each child is centred under the mean x of its parents, and its row is swept again.

Before writing the SVG, `render()` also computes:

- each member's greedily wrapped label and its box height;
- each generation's baseline, 8 below its lowest box;
- the trunk x of each group of parent-to-child connectors.

The project is organised as follows:

- `graph.dfy` (module `Graph`): members, relations and their kinds. It also builds the spouse and sibling adjacency tables in the key order of PHP's ordered arrays.
- `generations.dfy` (module `Generations`): generation inference as functions (`Pass`, `Iterate`, `Infer`), plus the imperative loop proved to compute them. Lemmas cover:
  - monotonicity, totality and the default of 0;
  - the bound on passes;
  - the relation constraints that hold once a pass changes nothing.
- `ordering.dfy` (module `Ordering`): the two sort orders the layout uses.
  - `sort($ids)` is ascending id.
  - The `usort` comparators sort by x, with ties broken by id.
- `layout.dfy` (module `Layout`): each phase of `layout()` as a function on the member table, with lemmas about what it does:
  - initial placement;
  - spouse compression;
  - the sweep;
  - centring.
- `family_tree.dfy` (module `FamilyTrees`): the `FamilyTree` class.
  - Its methods change `members` in place phase by phase.
  - Each method is proved to compute the matching function of `Layout`.
  - `Render` also returns the measured geometry.
- `wrap.dfy` (module `Labels`): the word wrap and the box height.
- `connectors.dfy` (module `Connectors`): box measurement, generation baselines, link grouping and trunk positions.
- `demo.dfy` (module `Demo`): the sample tree of index.php:12-29.
  - Inference on it converges in two passes to {1:0, 2:0, 3:1, 4:1, 6:1, 5:2}.
  - Its longest name wraps onto three lines.

Modelling choices:

- Ids are `int`.
- `x` is an exact `real`, because midpoints and means can be fractional. `y` is an `int`.
- A relation type string maps to a `Kind`. Any label other than `child`, `spouse` or `sibling` is kept as `Unrecognised` and ignored, as the source ignores it.
- The methods require that every child and spouse relation joins two members of the table (`Anchored`).

## Model

| member | source | states |
|---|---|---|
| FamilyTrees.FamilyTree.constructor | classes/FamilyTree.php:9-12 | A new tree has no members and no relations, and keeps the canvas size it was given. |
| FamilyTrees.FamilyTree.AddMember | classes/FamilyTree.php:14-22 | The member row is stored at (0, 0) under its id. A re-added id replaces its row but keeps its place in the key order. A new id goes last. |
| FamilyTrees.FamilyTree.AddRelation | classes/FamilyTree.php:25-31 | The relation is appended to the end of the list. Its type defaults to `child`. |
| FamilyTrees.KindOf | classes/FamilyTree.php:37 | Only the exact strings `child`, `spouse` and `sibling` give a recognised kind. Any other label is kept as it is. |
| FamilyTrees.KindRoundTrip | classes/FamilyTree.php:25-31 | The stored kind gives back the type string it was created from. |
| Graph.AdjKeys | classes/FamilyTree.php:35-49 | The adjacency table lists each key once. |
| Graph.AdjPairsLinked | classes/FamilyTree.php:35-49 | The nested loop over an adjacency table visits (a, b) exactly when a relation of that kind joins a and b, in either direction. |
| Graph.BuildAdjacency | classes/FamilyTree.php:35-49 | The loop builds exactly the adjacency table of the relation list, keys in first-seen order. |
| Graph.ReplayAdjacency | classes/FamilyTree.php:35-49 | Appending the relations one by one from an empty table yields the adjacency table. |
| Generations.Iterate | classes/FamilyTree.php:54-106 | The pass loop runs at most 8 passes. If it has not converged, it ran all 8. Its result only raises or adds generations. |
| Generations.Fallback | classes/FamilyTree.php:109-111 | The keys are exactly the assigned ids plus the members. Assigned generations are kept. Unassigned members get 0. |
| Generations.Infer | classes/FamilyTree.php:33-114 | Every member gets a generation, and none is negative. |
| Generations.PassExtends | classes/FamilyTree.php:55-105 | A pass never lowers or removes a generation. |
| Generations.PassSound | classes/FamilyTree.php:55-105 | A pass keeps every generation non-negative. It only assigns endpoints of recognised relations. |
| Generations.IterateSound | classes/FamilyTree.php:54-106 | The whole loop keeps every generation non-negative and assigned only to related ids. |
| Generations.InferTotal | classes/FamilyTree.php:33-114 | The result covers every member and is non-negative. A member in no recognised relation gets 0. |
| Generations.PassQuiet | classes/FamilyTree.php:55-105 | A pass that changes nothing ends settled. Every child is at least one generation below its parent, and the ends of each spouse or sibling relation are level. |
| Generations.IterateSettles | classes/FamilyTree.php:54-106 | When the loop stops because a pass changed nothing, its map is settled. |
| Generations.InferConsistent | classes/FamilyTree.php:54-111 | After convergence, if relations join members: gen(child) ≥ gen(parent) + 1 for every child edge, and spouses and siblings share a generation. |
| Generations.PropagateChildren | classes/FamilyTree.php:56-66 | The child-edge loop equals the child phase. It seeds an unassigned parent at 0 and raises the child to parent + 1. |
| Generations.Equalize | classes/FamilyTree.php:68-105 | The nested loop over an adjacency table applies the copy-or-lift step to each visited pair in order. |
| Generations.AssignDefaults | classes/FamilyTree.php:109-111 | The fallback loop computes `Fallback`. |
| Generations.InferGenerations | classes/FamilyTree.php:33-114 | The method computes `Infer`: the same pass loop, the same early stop, the same fallback. |
| Generations.RunPass | classes/FamilyTree.php:54-104 | One pass of the loop body (the child phase, then the spouse and sibling equalisation over the adjacency tables) computes `Pass`: the new generation map and whether any entry changed. |
| Generations.IterateStep | classes/FamilyTree.php:53 | While the pass count is below 8 and the last pass changed something, the loop runs one more pass. |
| Ordering.Insert | classes/FamilyTree.php:170-172 | Insertion adds exactly one copy of the value and keeps the sequence ordered. |
| Ordering.SortBy | classes/FamilyTree.php:170-172 | The result is a permutation of the input, strictly ordered by (key, id) when the input has no repeats. |
| Ordering.BeforeById | classes/FamilyTree.php:138 | With no keys, the order is ascending id, as `sort($ids)` gives. |
| Ordering.Rank | classes/FamilyTree.php:138-143 | In an ascending group, the entry at index i has exactly i smaller ids. |
| Layout.Members | classes/FamilyTree.php:128-133 | A group holds only members of its generation. |
| Layout.MembersHas | classes/FamilyTree.php:128-133 | A member is in the group of g if and only if its generation (default 0) is g. |
| Layout.Rows | classes/FamilyTree.php:128-133 | The group keys are distinct. |
| Layout.RowsHas | classes/FamilyTree.php:128-133 | g is a group key if and only if some member has generation g. |
| Layout.GroupOf | classes/FamilyTree.php:128-133 | Every member is in the group of its own generation, and that group is a key. |
| Layout.Initial | classes/FamilyTree.php:134-145 | Initial placement changes only coordinates. |
| Layout.InitialPlacement | classes/FamilyTree.php:134-145 | The i-th member of generation g by ascending id lands at x = 100 + 120 i, y = 100 + 150 g. |
| Layout.InitialGroup | classes/FamilyTree.php:134-145 | The sorted group holds each member of g once. Its i-th entry is placed at x = 100 + 120 i on row g. |
| Layout.Compress | classes/FamilyTree.php:148-165 | Both spouses take the row of the larger generation, with the partner's default taken from the first. They end 40 apart with their midpoint unchanged. Nobody else moves. A self-relation moves the member 20 right. |
| Layout.CompressAll | classes/FamilyTree.php:148-165 | Compressing all spouse relations in list order changes only coordinates. |
| Layout.Sweep | classes/FamilyTree.php:173-179 | A sweep keeps the table's keys. |
| Layout.SweepFrame | classes/FamilyTree.php:173-179 | A sweep moves only the boxes it walks and changes only their coordinates. |
| Layout.SweepPins | classes/FamilyTree.php:173-179 | A pinning sweep sets every walked box to the row's y. An unpinned sweep keeps y. |
| Layout.SweepRaises | classes/FamilyTree.php:173-179 | No box moves left, and every walked box ends at or right of the starting cursor (100). |
| Layout.SweepFirst | classes/FamilyTree.php:173-179 | The first box ends at max(x, 100). |
| Layout.SweepExact | classes/FamilyTree.php:173-179 | Each later box ends at max(its x, previous box + 120). |
| Layout.SweepSpaced | classes/FamilyTree.php:173-179 | Walked boxes end at least 120 apart, in walking order. |
| Layout.SweepSeparates | classes/FamilyTree.php:173-179 | Any two distinct walked boxes end at least 120 apart. |
| Layout.RowOrder | classes/FamilyTree.php:170-172 | The `usort`ed group is exactly the members of that generation, each once, sorted by x and then id. |
| Layout.SweepRowLaysOut | classes/FamilyTree.php:168-180 | Sweeping a row lays it out: on its y, right of the margin, 120 apart. Other rows are untouched. |
| Layout.ResolveAllLaysOut | classes/FamilyTree.php:167-180 | After collision resolution every swept row is laid out and unswept rows are untouched. |
| Layout.ResolveLaidOut | classes/FamilyTree.php:167-180 | Resolving all groups lays out the whole table. |
| Layout.ChildGens | classes/FamilyTree.php:183-192 | The child generations are distinct, in first-seen order. |
| Layout.ChildGroupsSnoc | classes/FamilyTree.php:183-192 | Each child relation appends its pair under its child generation, and nothing else. |
| Layout.ChildPairsAnchored | classes/FamilyTree.php:183-192 | Both ends of every grouped pair are members. |
| Layout.Centre | classes/FamilyTree.php:195-201 | Centring changes only the x of children with parents in the group. |
| Layout.MeanBetween | classes/FamilyTree.php:200 | A mean lies between any bounds of its values. |
| Layout.CentreBetween | classes/FamilyTree.php:195-201 | A centred child lands between its leftmost and rightmost parent. |
| Layout.CentreInRow | classes/FamilyTree.php:183-201 | Centring for generation cg moves only members of generation cg. |
| Layout.CentreRowMoves | classes/FamilyTree.php:194-213 | A centred child takes the mean x of its parents. The re-sweep moves boxes of that generation only right and keeps their y. Every other generation is untouched. |
| Layout.CentreRowLaidOut | classes/FamilyTree.php:194-213 | Centring and re-sweeping one generation keeps the table laid out. |
| Layout.CentreAllLaidOut | classes/FamilyTree.php:194-213 | Centring every child generation in turn keeps the table laid out. |
| Layout.Arrange | classes/FamilyTree.php:116-219 | The layout keeps the table's keys. |
| Layout.ArrangeLaidOut | classes/FamilyTree.php:116-219 | After layout every member keeps its id, name and tag. It sits on the row of its inferred generation, not left of the margin, at least 120 from every member of its generation. |
| Layout.InitialIgnoresCoords | classes/FamilyTree.php:136-145 | Initial placement overwrites every x and y, so two tables with the same ids, names and tags are placed identically whatever their old coordinates. |
| Layout.ArrangeIdempotent | classes/FamilyTree.php:116-219 | Laying out an already laid-out table gives the same table again: the layout is idempotent. |
| FamilyTrees.FamilyTree.GroupByGeneration | classes/FamilyTree.php:127-133 | The method builds `$groups`: group keys in first-seen order, each group the members of that generation in table order. |
| FamilyTrees.FamilyTree.PlaceInitial | classes/FamilyTree.php:134-145 | In place, the member table becomes `Initial`. |
| FamilyTrees.FamilyTree.PlaceGroup | classes/FamilyTree.php:136-144 | One group is placed at 100, 220, 340, … on its row. Every other member is unchanged. |
| FamilyTrees.FamilyTree.CompressSpouses | classes/FamilyTree.php:148-165 | In place, the table becomes `CompressAll` of the spouse relations in list order. |
| FamilyTrees.FamilyTree.CompressPair | classes/FamilyTree.php:153-164 | The four field writes for one spouse pair compute `Compress`: both take the y of the larger generation and sit 20 either side of their midpoint. |
| Layout.CompressAllStep | classes/FamilyTree.php:148-165 | One relation of the loop: a spouse relation compresses its pair, any other leaves the table, and the rest of the list follows. |
| FamilyTrees.FamilyTree.SweepGroup | classes/FamilyTree.php:173-179 | The cursor loop computes `Sweep`. |
| FamilyTrees.FamilyTree.ResolveCollisions | classes/FamilyTree.php:167-180 | In place, the table becomes `ResolveAll` over the groups. |
| FamilyTrees.GroupChildren | classes/FamilyTree.php:183-192 | The method builds `$childrenByGen`: keys in first-seen order, each list the child pairs of that generation. |
| FamilyTrees.ChildrenByGenPairs | classes/FamilyTree.php:183-192 | `$childrenByGen` is keyed by exactly the child generations; each list holds the pairs of that generation in relation order, and no other generation has any. |
| FamilyTrees.CollectTargets | classes/FamilyTree.php:195-198 | The method builds `$targets`: exactly the children with parents, each with its parents' x in pair order. |
| FamilyTrees.FamilyTree.CentreGroup | classes/FamilyTree.php:195-201 | In place, the table becomes `Centre`. |
| FamilyTrees.FamilyTree.CentreStep | classes/FamilyTree.php:194-213 | One child generation is centred and re-swept, equal to `CentreRow`. |
| FamilyTrees.FamilyTree.CentreChildren | classes/FamilyTree.php:194-213 | Every child generation in first-seen order, equal to `CentreAll`. |
| FamilyTrees.FamilyTree.Position | classes/FamilyTree.php:127-213 | The four phases in source order. |
| FamilyTrees.Arranged | classes/FamilyTree.php:116-219 | The phases compose to `Arrange`, which keeps every row and lays the table out. |
| FamilyTrees.FamilyTree.Layout | classes/FamilyTree.php:116-219 | `layout()` stores the inferred generations and leaves every member on its generation's row, right of the margin, 120 from its row mates, with id, name and tag kept. |
| FamilyTrees.FamilyTree.Render | classes/FamilyTree.php:221-325 | After layout, the method returns each member's wrapped lines and box height, each generation's baseline, and each link group's trunk x. Every parent generation of a link group has a baseline. |
| FamilyTrees.DrawsUnique | classes/FamilyTree.php:236-325 | The labels, heights, baselines and trunks are determined by the table and the relations: two drawings of one table are equal. |
| FamilyTrees.FamilyTree.RenderTwice | classes/FamilyTree.php:221-325 | Two `render()` calls in a row yield identical geometry, and the table after both is the one the first call left. |
| Labels.Explode | classes/FamilyTree.php:238 | There is always at least one piece, and no piece contains a space. |
| Labels.JoinExplode | classes/FamilyTree.php:238 | Joining the pieces with single spaces gives the name back. |
| Labels.ExplodeJoin | classes/FamilyTree.php:238 | Splitting a join of space-free words gives the words back. |
| Labels.WrapName | classes/FamilyTree.php:236-249 | The wrap loop computes `Wrap`. |
| Labels.WrapJoins | classes/FamilyTree.php:242-243 | A word that fits joins a truthy line after one space. |
| Labels.WrapBreaks | classes/FamilyTree.php:244-247 | A word that does not fit closes the line and starts the next. |
| Labels.WrapLines | classes/FamilyTree.php:236-249 | Every line is non-empty and at most 16 characters, unless it is one unsplit word of the name. |
| Labels.WrapRoundTrip | classes/FamilyTree.php:236-249 | When no word is empty or "0", the lines joined with single spaces give the name back. |
| Labels.ZeroLineQuirk | classes/FamilyTree.php:243 | A line that is exactly "0" is falsy, so "0 Ann" wraps to "0Ann" and the round trip fails. |
| Labels.BoxHeight | classes/FamilyTree.php:252 | The height is the larger of 40 and 14 per line + 10. |
| Labels.BoxHeightSteps | classes/FamilyTree.php:252 | Up to two lines give 40. From three lines on, each extra line adds 14. |
| Connectors.MeasureBoxes | classes/FamilyTree.php:236-255 | Every member has its wrapped lines and the matching box height. |
| Connectors.BottomsMax | classes/FamilyTree.php:258-265 | Every member's generation has a bottom at or below its box. Each bottom belongs to some member of that generation. |
| Connectors.Baselines | classes/FamilyTree.php:258-274 | Each baseline is 8 below the lowest box bottom of its generation. It is at least 8 below every box of it. |
| Connectors.GenerationLines | classes/FamilyTree.php:258-274 | The two loops compute the baselines. |
| Connectors.LinkPairsSnoc | classes/FamilyTree.php:301-306 | Each child relation appends its pair under its (parent generation, child generation) key, and nothing else. |
| Connectors.LinkPairsFrom | classes/FamilyTree.php:301-306 | Every linked pair comes from a child relation whose parent generation is the group's. |
| Connectors.GroupLinks | classes/FamilyTree.php:300-306 | The method builds `$genLinks`: exactly the non-empty groups, each with its pairs in list order. |
| Connectors.GroupedLinks | classes/FamilyTree.php:300-306 | Appending relation by relation gives exactly the non-empty (parent generation, child generation) groups, each with its pairs in relation order. |
| Connectors.ParentLineDefined | classes/FamilyTree.php:318 | The parent generation of every link group has a baseline. |
| Connectors.SeqMin | classes/FamilyTree.php:325 | `min` is an element and a lower bound. |
| Connectors.SeqMax | classes/FamilyTree.php:325 | `max` is an element and an upper bound. |
| Connectors.Trunk | classes/FamilyTree.php:310-325 | The method returns the parent and child box midpoints, and the trunk halfway between the outermost of them. |
| Connectors.Trunks | classes/FamilyTree.php:308-325 | Every link group gets its trunk x. |
| Connectors.TrunkCentred | classes/FamilyTree.php:324-325 | The trunk lies between the leftmost and rightmost midpoints, equally far from both. No midpoint is farther from it than they are. |
| Demo.DemoSpousePairs | index.php:15-22 | The sample's spouse table visits 1-2 and 3-4, each in both directions. |
| Demo.DemoSiblingPairs | index.php:25 | The sample's sibling table visits 4-6 in both directions. |
| Demo.DemoFirstPass | index.php:12-29 | The first pass assigns every sample member and reports a change. |
| Demo.DemoSecondPass | index.php:12-29 | The second pass changes nothing. |
| Demo.DemoIterate | index.php:12-29 | The loop stops, converged, after two passes. |
| Demo.DemoGenerations | index.php:12-29 | Inference converges and yields {1:0, 2:0, 3:1, 4:1, 6:1, 5:2}. |
| Demo.DemoFallback | index.php:12-29 | The fallback adds nothing for the sample. |
| Demo.DemoName | index.php:27 | The six words joined with spaces spell the longest sample name. |
| Demo.DemoLabel | index.php:27 | The longest sample name wraps to "Sir Galahad of" / "the Silvermoon" / "Bastion", so its box is 52 high. |

## Left out

- SVG output is not modelled: the header, the stub, span, connector, rectangle and text elements, colours, the ±10 span extents, the dashed spouse lines and the text offsets (classes/FamilyTree.php:223-226, 276-297, 327-370). The model stops at the geometry those strings are built from.
- The canvas width and height are stored, but the model does not use them, because the source only echoes them into the SVG header.
- Midpoints and means use exact `real` values instead of PHP floats, so float rounding is not modelled.
- Relations naming ids that are not members are not modelled as PHP handles them. A spouse relation with such an endpoint makes PHP create a phantom row through the `=&` references at lines 150-151. A child relation whose child is not a member makes PHP create a phantom row when it writes the centred x at line 200. A child relation whose parent is not a member creates no row: lines 197 and 313 read that parent's x as null, that is 0, which is what `Layout.XOf` gives. The layout methods nevertheless require both ends of every child and spouse relation to be members (`Anchored`), so the missing-parent case the source tolerates is excluded too. Sibling relations may still name unknown ids.
- Each member's box height is computed and returned, but writing `boxHeight` back into each member row (line 254) is not modelled, because nothing in the modelled code reads it.
- `strlen` counts bytes, but the model counts characters. The two agree on ASCII names.
- `$genLinks` is a map keyed by the (parent generation, child generation) pair, not a nested array. The nesting only fixes the order in which the SVG text is emitted.
- The `$genSpans` lists (lines 268-297) feed only the SVG generation lines and are not modelled.
- The dynamic properties `generationSpacing` and `boxWidth` (lines 217-218) are constants of the model, not fields. `computedGen` is a field.
- Labels.ZeroLineQuirk: the PHP truthiness test on a line is modelled as written. The wrap round trip is stated only for names with no empty or "0" word.
- Generations.InferConsistent: the relation constraints are proved only when the loop stops because a pass changed nothing. Eight passes need not reach a fixed point, and the source promises nothing otherwise.
