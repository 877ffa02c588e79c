# Go rules engine

This is a model of the rules engine of a small 9x9 Go bot, written in C++ in
`go/go.h`. It covers the following parts:

- **Points and geometry.** The point type `Pos` offers its four neighbours, its
  four diagonals, the two locality rings and a row-major ordering.
- **Point sets.** `Positions` is an ordered set of points.
- **Groups.** `_Group` is a chain of stones of one colour together with its
  liberties. Two groups of the same colour can be merged.
- **The board.** `Board` has a grid of group references and a set of active
  groups. Stones are placed with `place_stone`, which does the following:
  - It classifies the neighbouring groups.
  - It merges the friendly ones.
  - It refuses suicide.
  - It commits the new group.
  - It takes the point away from the enemies' liberties and removes the
    enemies that die.
- **Other board operations.** `removeDeadGroup`, `clear` and `copy`.
- **Moves and the bot.** A `Move`, the bot's `play`, its eye test
  `is_point_an_eye` and its atari test.

Layout:

- `geometry.dfy` (`Geometry`):
  - colours and points;
  - `Neighbors`, `Corners`, `Locality` and `Locality2`;
  - the ordering `Less`.
- `pointset.dfy` (`PointSet`): the class `Positions`. It holds a `set<Pos>`
  field, and its mutators reassign that field.
- `groups.dfy` (`Groups`): the value type `Group` and the merge.
- `rules.dfy`, in three modules:
  - `Rules` describes the board as a value, `State`. A group reference is
    an id in an arena of groups. Each board operation is stated in closed
    form: `Place`, `RemoveGroup`, `Cleared`, `Copied`, plus the as-written
    variants.
  - `RulesLemmas` holds the properties of those operations.
  - `PlaceProof` proves that a placement keeps the board invariant `Valid`.
- `board.dfy` (`GoBoard`): the class `Board`.
  - Its fields are a 9x9 `array2<Option<GroupId>>`, the arena `groups`, the
    set `active` and the next fresh id.
  - Every method is proved to compute the corresponding closed-form
    operation on `Model()`.
- `bot.dfy` (`GoBot`): `Move`, `Bot.Play`, the eye test and the atari test.

`Board` stands for shared group pointers with arena ids:

- `place_stone` creates a group under the next fresh id.
- A group that is absorbed or captured stays in the arena but leaves
  `active`. This matches the source, where a dropped `shared_ptr` no longer
  appears on the grid or in `activeGroups`.

The board invariant `Rules.Valid` requires all of the following:

- The grid covers exactly the 81 points.
- Every active group is in the arena, and every id in the arena is below
  the next fresh id.
- Every occupied point names an active group that holds the point.
- Every stone of an active group is on the grid under that group.
- Every active group has at least one stone and at least one liberty.
- Every liberty is an empty point next to one of the group's stones.

## Model

| member | source | states |
|---|---|---|
| Geometry.Opponent | go/go.h:12-15 | the other colour differs from the given one |
| Geometry.IsPosValid | go/go.h:187-189 | a point is on the board when its row and its column both lie in 0..8 |
| Geometry.Offset | go/go.h:25-27 | `Pos + (dr, dc)`: the point moved by the offset in row and column |
| Geometry.Less | go/go.h:55-57 | `operator<=>`: lexicographic on row, then column |
| Geometry.Neighbors | go/go.h:29-34 | four points, exactly the orthogonally adjacent ones |
| Geometry.Corners | go/go.h:36-41 | four points, exactly the diagonal ones |
| Geometry.L1IsRing | go/go.h:63-70 | the `l1` table lists exactly the non-zero offsets of at most one step |
| Geometry.L2IsRing | go/go.h:71-96 | the `l2` table lists exactly the non-zero offsets of at most two steps |
| Geometry.Locality | go/go.h:43-47 | eight points, exactly those within one step of `p` other than `p` |
| Geometry.Locality2 | go/go.h:49-53 | 24 points, exactly those within two steps of `p` other than `p` |
| Geometry.LocalityIsNeighborsAndCorners | go/go.h:29-47 | the first locality ring is the neighbours together with the diagonals |
| Geometry.NeighborsSymmetric | go/go.h:29-34 | `q` is a neighbour of `p` exactly when `p` is a neighbour of `q` |
| Geometry.LessIsStrictTotalOrder | go/go.h:55-57 | the row-then-column ordering is irreflexive, transitive and total |
| PointSet.Positions.constructor | go/go.h:101 | the default set is empty |
| PointSet.Positions.FromSeq | go/go.h:103 | the range constructor holds exactly the points of the range |
| PointSet.Positions.Has | go/go.h:105-107 | true exactly for members |
| PointSet.Positions.Count | go/go.h:119-121 | the number of distinct elements, zero exactly for the empty set |
| PointSet.Positions.Insert | go/go.h:109-111 | the new elements are the old ones plus `p` |
| PointSet.Positions.Remove | go/go.h:113-117 | reports whether `p` was a member; afterwards `p` is absent and every other element is unchanged |
| PointSet.Positions.GetAny | go/go.h:123-125 | on a non-empty set, a member that no other member precedes in the ordering |
| PointSet.Positions.Union | go/go.h:135-139 | a new point set holding exactly the elements of both operands |
| PointSet.Positions.InsertAll | go/go.h:141-143 | the new elements are the union of the old ones and the other set's |
| PointSet.Positions.RemoveAll | go/go.h:145-148 | a point stays exactly when it was present and is not in the range |
| Groups.Singleton | go/go.h:158 | the group holds exactly the one stone, with the given colour and liberties |
| Groups.NumLiberties | go/go.h:174-176 | the number of distinct liberties, zero exactly when there is none |
| Groups.IsDead | go/go.h:178-180 | dead exactly when there is no liberty |
| Groups.Merge | go/go.h:160-172 | succeeds exactly for equal colours; stones are the union; liberties are the union of the liberties minus every merged stone |
| Groups.MergedLibertiesAvoidStones | go/go.h:165-170 | a merged group's liberties are disjoint from its stones |
| Groups.MergeCommutes | go/go.h:165-170 | merging `a` with `b` gives the same group as merging `b` with `a` |
| Groups.MergeAssociates | go/go.h:210-212 | merging a chain of friends gives the same group however it is bracketed, so the order of the merge loop does not matter |
| Groups.MergeAsWritten | go/go.h:165-172 | `operator+=` as written: every call ends in the colour error |
| Groups.MergeAsWrittenAlwaysFails | go/go.h:165-172 | as written, a same-colour merge raises the error, while the intended merge succeeds |
| Rules.AllPoints | go/go.h:185-191 | exactly the points that `is_pos_valid` accepts |
| Rules.EmptyState | go/go.h:191-194 | the default board: all 81 points empty, no groups, nothing active |
| Rules.Vacant | go/go.h:198 | the intended first guard: on the board and empty |
| Rules.RejectsAsWritten | go/go.h:198 | the first guard as written: off the board or empty |
| Rules.MergedGroup | go/go.h:210-212 | the new stone with every adjacent friend merged in: their stones, and their liberties plus the empty neighbours, minus the stones |
| Rules.Commit | go/go.h:217-229 | the writes after the suicide gate: fresh group entered and painted, friends retired, enemies lose the point, dead enemies removed |
| Rules.Place | go/go.h:196-232 | `place_stone`: refuse at the guard, refuse a dead merged group, otherwise commit |
| Rules.RemoveGroup | go/go.h:234-237 | `removeDeadGroup`: the group leaves the active set and its points become empty |
| Rules.ClearedAsWritten | go/go.h:239-241 | `clear` as written: every point empty, the active set untouched |
| Rules.Cleared | go/go.h:239-241 | `clear` as intended: every point empty and nothing active |
| Rules.Copied | go/go.h:256-266 | `copy` as a value copy: same grid and active set, the arena cut down to the active groups |
| Rules.CopiedAsWritten | go/go.h:256-266 | `copy` as written: a grid painted from the active groups' stones with fresh copies, while the active set still names the originals |
| Rules.CopyAt | go/go.h:259-263 | a cell of the as-written copy: the copy of an active group with a stone there, otherwise empty |
| Rules.Restrict | go/go.h:256-266 | the copied arena keeps exactly the listed groups, unchanged |
| RulesLemmas.OwnersInMembership | go/go.h:203-206 | a group is collected exactly when a scanned point holds one of its stones of the sorting colour |
| RulesLemmas.EmptyInMembership | go/go.h:203-207 | a point is collected as a new liberty exactly when it is a scanned, on-board, empty neighbour |
| RulesLemmas.NeighborGroupsActive | go/go.h:201-208 | the friends and enemies found are active groups of the right colours, and no group is both |
| RulesLemmas.LibertyOwnerIsNeighbor | go/go.h:225-229 | every active group with `pos` as a liberty is among the friends or the enemies found at `pos` |
| RulesLemmas.MergedStoneAt | go/go.h:210-212 | every merged stone other than `pos` is on the grid under an adjacent friend |
| RulesLemmas.MergedLibertySource | go/go.h:207-212 | a merged liberty is an empty neighbour of `pos` or a friend's liberty |
| RulesLemmas.MergedLibertyEmpty | go/go.h:207-212 | every liberty of the merged group is an empty grid point |
| RulesLemmas.MergedLibertyAdjacent | go/go.h:207-212 | every liberty of the merged group is next to one of its stones |
| RulesLemmas.MergedGroupShape | go/go.h:210-212 | the placed stone is in the merged group, is not its own liberty, and liberties avoid stones |
| RulesLemmas.PlaceRejectsOffBoardOrOccupied | go/go.h:187-198 | off the board or on an occupied point (intended guard) the placement fails and nothing changes |
| RulesLemmas.GuardAsWrittenRefusesOpening | go/go.h:198 | the guard as written refuses every point of the empty board, where the intended placement succeeds |
| RulesLemmas.PlaceIsCommit | go/go.h:196-232 | an accepted placement commits the merged group with the friends and enemies found |
| RulesLemmas.PlaceRejectsSuicide | go/go.h:214-215 | a merged group with no liberty makes the placement fail with no change |
| RulesLemmas.PlaceSucceedsIff | go/go.h:196-232 | success exactly on a vacant point whose merged group has a liberty; a failure changes nothing |
| RulesLemmas.StonesOfAdd | go/go.h:212 | adding a friend adds exactly its stones |
| RulesLemmas.LibertiesOfAdd | go/go.h:212 | adding a friend adds exactly its liberties |
| RulesLemmas.LoseLibertyAdd | go/go.h:226-227 | one more enemy handled updates exactly that enemy's liberties |
| RulesLemmas.CaptureStep | go/go.h:226-229 | one more enemy handled is captured exactly when `pos` was its last liberty, and its stones are then erased |
| RulesLemmas.PrefixStep | go/go.h:203-208 | scanning one more neighbour adds exactly that point's owner or emptiness |
| RulesLemmas.CapturedAmongUpdate | go/go.h:222-229 | entering the new group does not change which enemies are captured nor their stones |
| RulesLemmas.ValidLibertiesAvoidStones | go/go.h:151-181 | on a valid board, no liberty of an active group is a stone of any active group |
| RulesLemmas.RemoveGroupPreservesValid | go/go.h:234-237 | removing an active group keeps the invariant; a point becomes empty exactly when it was empty or held that group |
| RulesLemmas.ClearLeavesEmptyBoard | go/go.h:239-241 | the intended clear gives a valid board with all 81 points empty |
| RulesLemmas.ClearAsWrittenBreaksValid | go/go.h:239-241 | clearing as written leaves active groups with no stones on the grid, breaking the invariant |
| RulesLemmas.CopyKeepsBoard | go/go.h:256-266 | the value copy is valid and has the same grid, active set and active groups |
| RulesLemmas.CopyAsWrittenBreaksValid | go/go.h:256-266 | as written, a copied grid names group copies that the copy's active set does not contain |
| RulesLemmas.ClearThenCopyRestoresStones | go/go.h:239-266 | `clear` then `copy`, both as written, puts every stone of an active group back, under the copy of its group |
| PlaceProof.CommitPreservesValid | go/go.h:217-229 | committing a merged group that satisfies the neighbourhood conditions keeps the invariant |
| PlaceProof.PlaceAround | go/go.h:201-208 | the friends and enemies found satisfy those neighbourhood conditions |
| PlaceProof.PlaceCovers | go/go.h:210-212 | the merged group covers exactly `pos` and the friends' stones |
| PlaceProof.PlaceBreathes | go/go.h:207-215 | the merged group's liberties are empty points next to its stones |
| PlaceProof.PlacePreservesValid | go/go.h:196-232 | every placement, accepted or not, keeps the board invariant |
| PlaceProof.PlacePutsStone | go/go.h:222-223 | after success the new group is active and every one of its stones is on the grid under it |
| PlaceProof.PlaceColorsPoint | go/go.h:222-223 | after success the placed point holds a stone of the placing colour |
| PlaceProof.PlaceRetiresFriends | go/go.h:219 | after success no absorbed friend is active |
| PlaceProof.PlaceUpdatesEnemy | go/go.h:226-229 | after success an adjacent enemy no longer has `pos` as a liberty, and stays active exactly when it kept another liberty |
| PlaceProof.PlaceClearsCaptured | go/go.h:226-237 | after success every stone of a captured enemy is empty on the grid |
| PlaceProof.PlaceKeepsOtherPoints | go/go.h:219-229 | after success a point outside the new group and the captured groups is unchanged |
| GoBoard.Board.constructor | go/go.h:194 | a valid board with all points empty and no groups |
| GoBoard.Board.At | go/go.h:243-248 | the cell of the model at `p` |
| GoBoard.Board.Classify | go/go.h:201-208 | the neighbour scan yields exactly the friends, the enemies and the empty neighbours |
| GoBoard.Board.MergeFriends | go/go.h:210-212 | the merge loop yields `pos` plus the friends' stones, with the combined liberties minus those stones |
| GoBoard.Board.RetireFriends | go/go.h:219 | the friends leave the active set and nothing else changes |
| GoBoard.Board.PutGroup | go/go.h:222-223 | the group is entered under the fresh id, made active and painted on its stones |
| GoBoard.Board.RemoveDeadGroup | go/go.h:234-237 | the new board is `RemoveGroup` of the old one; removing an active group of a valid board keeps it valid |
| GoBoard.Board.UpdateEnemies | go/go.h:225-229 | each enemy loses `pos`; exactly the enemies left without liberties are deactivated and erased |
| GoBoard.Board.CommitGroup | go/go.h:217-229 | the new board is the commit of the group over the old one |
| GoBoard.Board.PlaceStone | go/go.h:196-232 | the flag and the new board are those of `Place` over the old board, and the invariant is kept |
| GoBoard.Board.ClearAsWritten | go/go.h:239-241 | every point is emptied; groups and active set stay as they were |
| GoBoard.Board.Clear | go/go.h:239-241 | every point is emptied and the active set is emptied; the board is valid again |
| GoBoard.Board.Copy | go/go.h:256-266 | a fresh, valid board whose model is the value copy of the original |
| GoBoard.Board.PaintCopies | go/go.h:259-264 | a point of the copy's grid names the group the original names there when that group is active, and is empty otherwise |
| GoBoard.Board.ActivePainted | go/go.h:259-264 | on a valid board, the points painted with an active group are exactly its stones |
| GoBoard.Board.CopyStones | go/go.h:260-263 | one active group's stones are painted on the copy's grid and every other point is left alone |
| GoBot.PlayAt | go/go.h:274-276 | `Move::play_at`: a placement of the given colour at the given point |
| GoBot.Resign | go/go.h:277-279 | `Move::resign`: a resignation of the given colour at the default point (0, 0) |
| GoBot.Bot.constructor | go/go.h:290-296 | the bot plays the given colour on the given board |
| GoBot.Bot.Play | go/go.h:332-334 | a resignation succeeds without changing the board; a placement is `place_stone` with the move's colour and point |
| GoBot.StoneColor | go/go.h:562-572 | the colour of the stone at an on-board point, or none when the point is empty |
| GoBot.CountsCover | go/go.h:566-578 | counted diagonals plus off-board diagonals never exceed four, and equal four exactly when every on-board diagonal has the colour |
| GoBot.ScanCorners | go/go.h:566-577 | the diagonal loop counts the diagonals of the colour and the off-board ones, and notes whether all four are on the board |
| GoBot.IsEye | go/go.h:559-579 | the eye condition: empty point, every on-board neighbour of the colour, then three of four diagonals inside the board or every on-board diagonal at an edge |
| GoBot.IsPointAnEye | go/go.h:559-579 | the result is `IsEye`: the point is empty and every on-board neighbour has the colour; an interior point then needs three diagonals of the colour, and an edge point needs all its on-board diagonals |
| GoBot.EyeRefusesOpponent | go/go.h:559-579 | the other colour can never place a stone in an eye |
| GoBot.InAtari | go/go.h:428-431 | some active group of the colour has exactly one liberty |
| GoBot.IsInAtari | go/go.h:428-431 | true exactly when some active group of the colour has one liberty |
| GoBot.AtariCapturedAtLiberty | go/go.h:428-431 | a group in atari is captured, with all its stones erased, by an accepted placement on its last liberty |

## Left out

- **Move choice.** The bot's move choice, Monte-Carlo playouts, ladder
  reading and minimax (go/go.h:336-426, 433-557) are not modelled. They
  rely on helpers defined nowhere in the file and on random numbers.
- **The strength table.** The table in the `Bot` constructor
  (go/go.h:296-330) is static configuration and is not modelled.
  `GoBot.Bot.constructor` takes only the colour and the board.
- **The message handler.** The commented-out message handler
  (go/go.h:583-626) is I/O plumbing and is not modelled.
- **`shared_ptr`.** Ownership and reference counting are replaced by arena
  ids. Pointer identity is modelled only where it matters to behaviour: the
  aliasing in `copy`.
- **Iteration order.** `std::set` iteration order (by `Pos` ordering, or by
  pointer value for groups) is not modelled. The loops over friends,
  enemies and stones pick any remaining element. `Groups.MergeAssociates`
  and `Groups.MergeCommutes` show that the order of the merge does not
  matter.
- PointSet.Positions.GetAny: a ghost function. It gives the least element
  of the ordering, but no executable code in the model uses it.
- **Freed liberties.** Captures do not give liberties back to the
  neighbouring groups (go/go.h:234-237), and the model does the same. So
  `Rules.Valid` does not claim that every empty neighbour of a group is a
  liberty; it claims only the converse.
- **Moves played after captures.** The suicide gate runs before captures
  (go/go.h:214-215 against 226-229), and the model keeps that order. So a
  stone that would capture, but that has no liberty before the capture, is
  refused. `GoBot.EyeRefusesOpponent` relies on this.
- **Move constructors.** `GoBot.PlayAt` and `GoBot.Resign` build the two
  kinds of move. They have no contract of their own. A resignation's point
  is the default point (0, 0).
- **The eye test.** `is_point_an_eye` dereferences the group of an empty
  neighbour or diagonal (go/go.h:563, 571), which is a null pointer. The
  model reads an empty point as "not of this colour". `GoBot.IsPointAnEye`
  requires the tested point to be on the board, because the source indexes
  the grid with it unchecked (go/go.h:560).
- GoBoard.Board.Clear: its contract promises validity only from a board
  whose arena is consistent. It leaves the arena as it was, just as the
  source does.
- **The clear and copy defects.** `GoBoard.Board.ClearAsWritten` and
  `Rules.CopiedAsWritten` model `clear` and `copy` as written. The rest of
  the model uses the corrected `GoBoard.Board.Clear` and
  `GoBoard.Board.Copy`. Copied groups in the as-written copy get the ids
  `nextId + id`.
- Rules.CopyAt: when two active groups claim the same point, the source
  paints the copy of whichever comes last in pointer order. The model picks
  one of them without saying which. This cannot happen when the active
  groups come from a valid board, even after `clear` as written
  (`RulesLemmas.ClearThenCopyRestoresStones`).

## Findings

| source | as written | input that shows it | evidently intended | confidence | as-written member | corrected member |
|---|---|---|---|---|---|---|
| go/go.h:198 | `place_stone` returns false when the target point is empty (`!grid[row][col]`) | any on-board point of the empty board | return false when the point is off the board or occupied | not executed | RulesLemmas.GuardAsWrittenRefusesOpening | RulesLemmas.PlaceRejectsOffBoardOrOccupied |
| go/go.h:171 | `operator+=` throws "Cannot merge groups of different colors" after every merge, including a same-colour one | two groups of the same colour | throw only when the colours differ | not executed | Groups.MergeAsWrittenAlwaysFails | Groups.Merge |
| go/go.h:240 | `clear` resets the grid but not `activeGroups` | any board with an active group | also empty the active set | not executed | RulesLemmas.ClearAsWrittenBreaksValid | RulesLemmas.ClearLeavesEmptyBoard |
| go/go.h:258 | `copy` puts the original groups in the copy's active set while its grid points at fresh copies | any board with a stone on it | the active set names the copied groups, so the two boards share nothing | not executed | RulesLemmas.CopyAsWrittenBreaksValid | RulesLemmas.CopyKeepsBoard |
