# MuseGarden core, modelled in Dafny

MuseGarden is a small reading site. It has a shelf of uploaded markdown stories, a line-by-line markdown renderer and a build script that writes the story catalogue. Two mini-games sit beside it:
- a runner game, where a box jumps over obstacles;
- the hatchery observation, a two-team agent simulation.

The simulation exists in two rule variants: a later one (the "RCop" hatchery) and an earlier one. This project models the rules of all of these and proves what they promise.

| module | file | models |
|---|---|---|
| `Lists` | `lists.dfy` | JavaScript `filter` and `map` on arrays, with the laws the other modules use |
| `Text` | `text.dfy` | the string operations the code relies on: `split` on one character and on `/\s+/`, `trim`, `indexOf`, `replace` of the first match, `startsWith`, and string order |
| `Sorting` | `sorting.dfy` | the stable `Array.prototype.sort` used by the catalogue script, as a sorted, stable permutation |
| `MarkdownRenderer` | `markdown_renderer.dfy` | `components/MarkdownRenderer.tsx`: one block per line (heading 1–3, rule, spacer, paragraph) |
| `StoryShelf` | `story_shelf.dfy` | `App.tsx`: story preview, upload title, duplicate-free upload, deletion, reading time; the shelf state as class `Shelf` |
| `StoriesGenerator` | `stories_generator.dfy` | `scripts/generateStoriesData.ts`: upload dates, language, title and word count, the merge with hand-edited entries, per-language numbering and the final sort |
| `RunnerGame` | `runner_game.dfy` | `components/Game.tsx`: jump physics, spawning and culling, collision, score and speed, the key/jump state machine and the score colour; the game state as class `Game` |
| `Arena` | `arena.dfy` | the agent, drug and arena rules the two simulations share: distances, the power gap, clamping, the nearest-drug scan, wandering, the arena shrink, team counts and effect ageing |
| `RCopSimulation` | `rcop_simulation.dfy` | `components/RCop/Simulation.tsx`: the per-frame phases as loops over the agent list, proved against specification functions; the component state as class `Simulation` |
| `EarlySimulation` | `early_simulation.dfy` | `components/Simulation.tsx`: the earlier rules in the same shape; it reuses the shared records and predicates of `RCopSimulation` |

How the simulations are modelled:
- Agents, drugs and effects are value records in `seq` fields of a `Simulation` class. Every phase is a method with a loop that is proved equal to a recursive specification function: `MovePass`, `DrugPass`, `Round`/`Visit`/`Meet`, `Endgame`.
- Lemmas about those functions state the rules.
- Deferred removal is modelled as a list of ids to remove plus one filter at the end, as the code does it.
- Each phase and the whole frame (`Tick`) keep three facts: ids are distinct, powers are positive, and every surviving agent descends from an earlier one with a power at least as large (`Evolves`).
- The endgame states that, when the game is not ended, exactly the lone survivors are protected.
- An ending is stated to be decided by the teams left (`Decided`): A means only rabbits remain, C only reindeer, B one of each.
- In the later variant the survival ending B is proved unreachable: a gap beyond 0.3 is always beyond 0.25.
- Same-team kills in components/RCop/Simulation.tsx are gated by the aggressiveness threshold (lines 373-375), as cross-team kills are.

## Model

| member | source | states |
|---|---|---|
| Lists.Filter | components/RCop/Simulation.tsx:534 | `array.filter`: only accepted elements, never more than the input |
| Lists.Map | scripts/generateStoriesData.ts:77-86 | `array.map`: same length, each element the image of the input at that position |
| Lists.FilterPartition | scripts/generateStoriesData.ts:123-141 | three mutually exclusive tests split a list into three parts whose union is the list (as a multiset) |
| Lists.FilterSplit | App.tsx:64 | two complementary tests split a list into two parts whose union is the list (as a multiset) |
| Lists.FilterTwice | components/RCop/Simulation.tsx:534 | two filters in a row keep exactly what both tests accept |
| Text.IndexOf | components/Game.tsx:72-73 | `indexOf`: the first position where the pattern occurs, none when it occurs nowhere |
| Text.ReplacePrefix | App.tsx:43 | replacing the first occurrence of a prefix by nothing removes that prefix |
| Text.ReplaceAbsent | App.tsx:44 | `replace` of a pattern that does not occur returns the text unchanged |
| Text.ReplaceAppendedSuffix | scripts/generateStoriesData.ts:34 | removing the first ".md" from a name with ".md" appended (and none inside) gives back the name |
| Text.Split | components/MarkdownRenderer.tsx:11 | `split` on a one-character separator never returns an empty array |
| Text.JoinSplit | components/MarkdownRenderer.tsx:11 | joining the pieces of a split with the separator gives back the text |
| Text.SplitPieces | components/MarkdownRenderer.tsx:11 | no piece contains the separator, and there is one more piece than separators |
| Text.SplitJoin | App.tsx:41 | splitting a join of separator-free pieces gives back the pieces |
| Text.SplitWord | App.tsx:41 | a separator-free word in front of a text extends its first piece |
| Text.TrimStart | App.tsx:72 | the result is a suffix of the input, and only white space was cut off |
| Text.TrimEnd | App.tsx:72 | the result is a prefix of the input, and only white space was cut off |
| Text.TrimShape | App.tsx:72 | `trim` returns a slice of the input with white space cut off both ends, and the slice neither starts nor ends with white space |
| Text.TrimEdges | App.tsx:72 | a non-empty `trim` result neither starts nor ends with white space |
| Text.TrimEmpty | components/MarkdownRenderer.tsx:28 | a text trims to "" exactly when it is all white space |
| Text.TrimBlank | scripts/generateStoriesData.ts:23 | a trimmed text is all white space exactly when the original was |
| Text.LexLeTotal | scripts/generateStoriesData.ts:144 | any two strings are ordered one way or the other |
| Text.LexLeTransitive | scripts/generateStoriesData.ts:144 | string order is transitive |
| Text.LexLeAntisymmetric | scripts/generateStoriesData.ts:144 | two strings ordered both ways are equal |
| Text.TakeWord | scripts/generateStoriesData.ts:39 | the leading run of non-space characters: a prefix without spaces, followed by a space or the end |
| Text.DropSpaces | scripts/generateStoriesData.ts:39 | the text after its leading white space: a suffix that does not start with white space, with only white space dropped |
| Text.SplitSpaces | scripts/generateStoriesData.ts:39 | `split(/\s+/)` never returns an empty array |
| Text.RemoveSpaces | scripts/generateStoriesData.ts:39 | the non-space characters of a text hold no white space |
| Text.SplitSpacesContent | scripts/generateStoriesData.ts:39 | the pieces of `split(/\s+/)` hold no white space and together hold every other character, in order |
| Text.NonEmptyConcat | scripts/generateStoriesData.ts:39 | dropping empty pieces loses no character |
| Text.NoWordsIffBlank | scripts/generateStoriesData.ts:39 | the word count is 0 exactly when the text is all white space |
| Text.RemoveSpacesNonBlank | scripts/generateStoriesData.ts:39 | a text with a non-space character keeps one after the spaces are removed |
| Sorting.Insert | scripts/generateStoriesData.ts:144 | insertion adds exactly one element and keeps the rest as a multiset |
| Sorting.SortBy | scripts/generateStoriesData.ts:144 | the sort is a permutation of its input |
| Sorting.InsertSorted | scripts/generateStoriesData.ts:149 | inserting into a sorted list keeps it sorted under a total preorder |
| Sorting.SortBySorted | scripts/generateStoriesData.ts:158-163 | the sort's output is ordered by the comparator |
| Sorting.InsertStable | scripts/generateStoriesData.ts:144 | insertion puts an element in front of every element it compares equal to |
| Sorting.SortByStable | scripts/generateStoriesData.ts:158-163 | the sort is stable: elements that compare equal keep their input order |
| MarkdownRenderer.RenderLine | components/MarkdownRenderer.tsx:16-31 | a heading block's text is the line without its "# ", "## " or "### " marker; a rule's line trims to "---"; a spacer's line is blank; a paragraph holds the line verbatim |
| MarkdownRenderer.Render | components/MarkdownRenderer.tsx:11-32 | one block per '\n'-separated line, in order, so one more block than newlines |
| MarkdownRenderer.RenderLineCases | components/MarkdownRenderer.tsx:16-31 | which block a line becomes, both ways: each heading exactly when its marker starts the line and no earlier marker does; otherwise a rule exactly when the line trims to "---", a spacer exactly when it is all white space, and a paragraph holding the line in every other case |
| MarkdownRenderer.HeadingRoundTrip | components/MarkdownRenderer.tsx:16-24 | each heading marker followed by any text renders back to exactly that text |
| MarkdownRenderer.MarkerWithoutSpace | components/MarkdownRenderer.tsx:16-31 | a "#" directly followed by non-space text is a paragraph, not a heading |
| MarkdownRenderer.BareHashIsParagraph | components/MarkdownRenderer.tsx:31 | a bare "#" line is a paragraph |
| StoryShelf.FirstQualifying | App.tsx:70-73 | the first line whose trimmed form is non-empty and does not start with '#'; none when no line qualifies |
| StoryShelf.Shorten | App.tsx:74 | text of at most 150 characters is kept; longer text becomes its first 150 characters followed by "..." |
| StoryShelf.FirstQualifyingIsUnique | App.tsx:70-77 | the scan answers the one first qualifying line, and none exactly when no line qualifies |
| StoryShelf.PreviewOfLines | App.tsx:68-78 | the preview is "No preview available." when no line qualifies, else the first qualifying line trimmed and shortened |
| StoryShelf.Preview | App.tsx:68-78 | a preview is never longer than 153 characters |
| StoryShelf.PreviewIsPrefix | App.tsx:73-74 | the preview starts with the trimmed qualifying line, up to 150 characters of it |
| StoryShelf.UploadTitle | App.tsx:41-44 | a first line starting "# " gives the title after that marker; otherwise the file name with its first ".md" removed |
| StoryShelf.UploadTitleFromHeading | App.tsx:41-43 | a file whose first line is "# t" is titled t |
| StoryShelf.UploadTitleFromName | App.tsx:44 | a file without a heading line, named n + ".md", is titled n |
| StoryShelf.AddUpload | App.tsx:54-57 | an upload whose file name is already on the shelf leaves it unchanged; otherwise the story is appended |
| StoryShelf.AddUploadKeepsNamesUnique | App.tsx:54-57 | uploads keep file names on the shelf distinct, the file is on the shelf afterwards, and uploading it again changes nothing |
| StoryShelf.Without | App.tsx:64 | deletion keeps exactly the stories with another id, as `filter` does: only stories of the shelf, none with the deleted id |
| StoryShelf.WithoutKeepsOrder | App.tsx:64 | deletion keeps the shelf's order: the kept stories of any front part come before those of the rest, and one story stays exactly when its id differs |
| StoryShelf.WithoutSplits | App.tsx:64 | what deletion keeps plus what carried the id is the old shelf, as a multiset |
| StoryShelf.WithoutAbsent | App.tsx:64 | deleting an id no story carries changes nothing |
| StoryShelf.WithoutKeepsOthers | App.tsx:64 | every story with another id survives deletion |
| StoryShelf.ReadingMinutes | App.tsx:160 | the smallest whole number of minutes covering the ' '-separated pieces at 200 per minute |
| StoryShelf.Shelf.constructor | App.tsx:9-10 | an empty shelf with no story open |
| StoryShelf.Shelf.Upload | App.tsx:38-57 | the shelf after an upload is `AddUpload` of the titled story; the open story is kept; distinct file names stay distinct |
| StoryShelf.Shelf.DeleteStory | App.tsx:63-66 | the shelf becomes `Without` of the old one (the other stories, in order); the reader closes exactly when it showed the deleted story |
| StoriesGenerator.GetUploadDate | scripts/generateStoriesData.ts:55-62 | "2026-02-14" exactly for the one dated file, "2025" for every other name |
| StoriesGenerator.ParseMarkdownFile | scripts/generateStoriesData.ts:22-52 | language CN exactly when the name holds a CJK ideograph; default title, empty tags and summary, version "none"; word count is the trimmed length for Chinese and the number of words otherwise, and it is 0 exactly for blank content |
| StoriesGenerator.DefaultTitle | scripts/generateStoriesData.ts:34 | a file n + ".md" is titled n by default |
| StoriesGenerator.Overlay | scripts/generateStoriesData.ts:127-132 | each field the stored entry defines replaces the parsed one; id, language, file name and word count stay |
| StoriesGenerator.OverlayLaws | scripts/generateStoriesData.ts:127-132 | an entry without edits changes nothing, and applying the same edits twice is applying them once |
| StoriesGenerator.MergeOne | scripts/generateStoriesData.ts:124-132 | a record of a known file takes its stored edits; a record of a new file is unchanged |
| StoriesGenerator.ByDatePreorder | scripts/generateStoriesData.ts:144 | ordering by upload date is a total preorder, so the sort is well defined |
| StoriesGenerator.ChineseFirstByOrderPreorder | scripts/generateStoriesData.ts:158-163 | "Chinese first, then descending order" is a total preorder |
| StoriesGenerator.Numbered | scripts/generateStoriesData.ts:145-147 | the k-th record gets order k + 1 and nothing else changes |
| StoriesGenerator.NewEntries | scripts/generateStoriesData.ts:133-152 | the new files of one language, numbered 1..n by ascending upload date |
| StoriesGenerator.SortedNewFiles | scripts/generateStoriesData.ts:141-146 | the new files sorted by upload date are in ascending date order and are all new files of the one language |
| StoriesGenerator.CatalogueOrdered | scripts/generateStoriesData.ts:158-163 | the catalogue lists Chinese stories before English ones, each language by descending order |
| StoriesGenerator.NewEntriesNames | scripts/generateStoriesData.ts:144-152 | sorting and numbering the new files keeps their file names |
| StoriesGenerator.KeptNames | scripts/generateStoriesData.ts:155 | the kept records carry the known files' names, in order |
| StoriesGenerator.CatalogueFiles | scripts/generateStoriesData.ts:123-163 | every record's file appears in the catalogue exactly as often as among the records |
| StoriesGenerator.GeneratedFiles | scripts/generateStoriesData.ts:75-163 | every `.md` file of the directory appears in the catalogue exactly as often as in the directory |
| StoriesGenerator.KeptEntry | scripts/generateStoriesData.ts:124-132 | a kept entry is a known file's record with its stored edits applied |
| StoriesGenerator.NewEntry | scripts/generateStoriesData.ts:133-152 | a new entry is one of the parsed records with only its order replaced; its file is unknown, of its list's language, with an order between 1 and that list's length |
| StoriesGenerator.CatalogueEntries | scripts/generateStoriesData.ts:120-163 | every catalogue entry is either an edited known record or a numbered new one |
| StoriesGenerator.CollectEdits | scripts/generateStoriesData.ts:100-109 | the edits map holds exactly the stored file names, and the last entry for a file wins |
| StoriesGenerator.AssignOrders | scripts/generateStoriesData.ts:145-152 | the numbering loop computes `Numbered` |
| StoriesGenerator.MergeEdits | scripts/generateStoriesData.ts:120-141 | the merge loop edits known records in place and collects the new ones per language, in input order |
| StoriesGenerator.GenerateStoriesData | scripts/generateStoriesData.ts:64-163 | the edits of the previous catalogue and the catalogue written, equal to the specification `Generated` |
| RunnerGame.JumpStep | components/Game.tsx:128-137 | in the air, gravity is added and then the position moves; reaching the ground snaps to it at rest; afterwards the box is never below the ground |
| RunnerGame.ArcStep | components/Game.tsx:128-131 | one more frame of the arc follows the closed form and stays above the ground up to frame 48 |
| RunnerGame.JumpArc | components/Game.tsx:128-131 | k frames into a jump the box is on the closed-form arc |
| RunnerGame.ArcPeak | components/Game.tsx:128-131 | the arc never rises more than 120 pixels |
| RunnerGame.JumpLands | components/Game.tsx:128-137 | a jump from the ground stays in the air 48 frames, lands on the 49th at rest, and peaks 120 pixels up |
| RunnerGame.Rightmost | components/Game.tsx:157-162 | the largest x among the obstacles, attained by one of them |
| RunnerGame.Advance | components/Game.tsx:165-170 | the obstacles left after a frame are all on screen |
| RunnerGame.AdvanceMembers | components/Game.tsx:165-170 | an obstacle survives exactly when it is an input shifted left by the speed and still on screen |
| RunnerGame.CollisionNeedsOverlap | components/Game.tsx:173-189 | a collision needs the boxes to overlap on both axes |
| RunnerGame.GroundedCollision | components/Game.tsx:173-189 | a box on the ground hits a spawned obstacle exactly while the obstacle's x is strictly between 25 and 85 |
| RunnerGame.HighJumpClears | components/Game.tsx:173-189 | a box whose top is at 115 or higher clears every spawned obstacle |
| RunnerGame.Digits | components/Game.tsx:69 | `toString` of a score is a non-empty string of decimal digits ending in the last digit |
| RunnerGame.DigitsRoundTrip | components/Game.tsx:69 | the decimal text reads back as the score |
| RunnerGame.ScoreColour | components/Game.tsx:69-87 | pink when the first 6 precedes the first 7, else mint with a 6, else light purple with a 7, else dark purple |
| RunnerGame.ScoreColourExamples | components/Game.tsx:75-77 | 67 is pink |
| RunnerGame.MintExample | components/Game.tsx:75-80 | 76 is mint, not pink: its 7 comes before its 6 |
| RunnerGame.PurpleExamples | components/Game.tsx:81-86 | 7 is light purple and 0 dark purple |
| RunnerGame.FirstIndex | components/Game.tsx:70-73 | `indexOf` of one character is none exactly when it is absent, else the position of its first occurrence |
| RunnerGame.FirstUnique | components/Game.tsx:72-73 | two first occurrences of a character are the same position |
| RunnerGame.PinkOrder | components/Game.tsx:75 | "both present and the first 6 before the first 7" holds exactly when some first 7 has a 6 before it |
| RunnerGame.Game.constructor | components/Game.tsx:16-28 | idle, not over, score 0, no obstacles, the box at rest on the ground, speed 2.5 |
| RunnerGame.Game.HandleJump | components/Game.tsx:254-281 | after a game over, a full reset into play; when idle, play starts; in play on the ground, a jump at speed −10; in the air, nothing |
| RunnerGame.Game.HandleKeyPress | components/Game.tsx:221-251 | another key changes nothing; the space key restarts after a game over, starts when idle, jumps when on the ground and otherwise changes nothing, as the jump button does |
| RunnerGame.Game.Update | components/Game.tsx:119-206 | nothing changes unless playing; otherwise the jump step, spawn, shift and cull, collision and score follow in order |
| RunnerGame.Game.MoveObstacles | components/Game.tsx:140-170 | a spawn only after 500 ms, on a draw below 0.01 and 300 px behind the last; the rightmost x is remembered; then shift and cull |
| RunnerGame.Game.DetectCollision | components/Game.tsx:173-189 | any colliding obstacle ends the game and stops play; nothing else changes |
| RunnerGame.Game.UpdateScore | components/Game.tsx:192-203 | after a second the score goes up by one; speed stays 2.5 plus 0.2 per completed six points |
| RunnerGame.SpeedSchedule | components/Game.tsx:197-199 | the speed goes up by 0.2 exactly when the new score is a multiple of 6 |
| Arena.Clamp | components/RCop/Simulation.tsx:291-297 | the clamp lands inside a non-empty range and keeps a value already inside |
| Arena.DistSq | components/RCop/Simulation.tsx:138-140 | the squared distance is never negative |
| Arena.PowerDiff | components/RCop/Simulation.tsx:371 | for positive powers the gap lies strictly between −1 and 1, and is positive exactly when the other is stronger |
| Arena.PowerDiffAntisymmetric | components/RCop/Simulation.tsx:581 | seen from the other side the gap changes sign |
| Arena.PowerDiffNarrows | components/RCop/Simulation.tsx:613-628 | both sides growing by the same amount never widens the gap |
| Arena.IdsDiffer | components/RCop/Simulation.tsx:88-135 | two positions of a list with distinct ids hold different ids |
| Arena.GrownEvolves | components/RCop/Simulation.tsx:356-535 | an in-place pass where powers only grow keeps each agent's history |
| Arena.EvolvesTransitive | components/RCop/Simulation.tsx:739-749 | histories compose across the phases of a frame |
| Arena.EvolvesFilter | components/RCop/Simulation.tsx:534 | removing agents keeps every survivor's history |
| Arena.EvolvesPositive | components/RCop/Simulation.tsx:101 | powers stay positive along a history |
| Arena.UniqueFilter | components/RCop/Simulation.tsx:534 | a filtered list keeps ids distinct |
| Arena.GrownUnique | components/RCop/Simulation.tsx:356-535 | an in-place update keeps ids distinct |
| Arena.InPlaceKeeps | components/RCop/Simulation.tsx:638-656 | an update that moves agents and only raises powers keeps histories, distinct ids, positive powers and teams |
| Arena.GrownKeeps | components/RCop/Simulation.tsx:167-298 | an update in place that only lets agents grow keeps distinct ids and positive powers |
| Arena.SameTeamsSizes | components/RCop/Simulation.tsx:698-708 | an update keeping every agent's team keeps the team sizes |
| Arena.TeamMemberFound | components/RCop/Simulation.tsx:711-716 | the scan for a team member finds one on a non-empty team |
| Arena.SameTeamsLone | components/RCop/Simulation.tsx:698-708 | an update keeping teams keeps who is a lone survivor |
| Arena.RemoveEachFilter | components/RCop/Simulation.tsx:340-349 | removing agents one at a time by id keeps exactly the agents whose id is not listed |
| Arena.RemovePicked | components/RCop/Simulation.tsx:340-349 | with distinct ids, removing one by one the agents a test picks removes exactly those |
| Arena.RemoveOnlyMember | components/RCop/Simulation.tsx:587-598 | removing the only member of a team empties it and leaves the other team as it was |
| Arena.LastOfTeamFalls | components/RCop/Simulation.tsx:587-598 | removing the last of a team leaves that team empty and decides the ending for the other team |
| Arena.ShrinkBounds | components/RCop/Simulation.tsx:543-557 | each side moves in by the amount, or the box resets to the central 200×200; the box stays at least 200 wide and high and centred on (600, 400) |
| Arena.ShrinkNests | components/RCop/Simulation.tsx:544-557 | a non-negative shrink never grows the box |
| Arena.ShrinkMovesEachSide | components/RCop/Simulation.tsx:546-549 | until the floor is hit, each side moves in by exactly the amount |
| Arena.ClampInto | components/RCop/Simulation.tsx:560-563 | only the position changes, it lands inside the box inset by 4, and an agent already inside stays put |
| Arena.NearestFrom | components/RCop/Simulation.tsx:143-156 | the scan from position k keeps its invariant to the end of the list |
| Arena.NearestDrug | components/RCop/Simulation.tsx:143-156 | the chosen drug is within 500, strictly closer than every earlier drug in range and no farther than every later one; none when no drug is in range |
| Arena.FindNearestDrug | components/RCop/Simulation.tsx:143-156 | the min-scan loop computes `NearestDrug` |
| Arena.LastMatch | components/RCop/Simulation.tsx:193-239 | the last element that passes the test, none when none does |
| Arena.ScanLastMatch | components/RCop/Simulation.tsx:193-239 | a scan that overwrites its answer on every match ends on the last match |
| Arena.FinishMove | components/RCop/Simulation.tsx:291-297 | the step changes only the position and lands inside the box inset by 4 |
| Arena.Wander | components/RCop/Simulation.tsx:240-287 | wandering changes only the velocity and the wander target |
| Arena.WanderTarget | components/RCop/Simulation.tsx:258-274 | a re-chosen target lies in the box inset by 50 and is stamped now; otherwise the target is kept |
| Arena.StaleTargetIsReplaced | components/RCop/Simulation.tsx:258-262 | a target more than 3 s old is always re-chosen |
| Arena.Steer | components/RCop/Simulation.tsx:193-239 | steering changes only the velocity |
| Arena.SteerToDrug | components/RCop/Simulation.tsx:181-190 | heading for a drug changes only the velocity |
| Arena.ExpireDrugs | components/RCop/Simulation.tsx:753-755 | no drug older than its lifetime remains |
| Arena.LiveDrugKept | components/RCop/Simulation.tsx:753-755 | a drug within its lifetime survives |
| Arena.AgeMarks | components/RCop/Simulation.tsx:758 | darkening marks younger than 500 ms remain |
| Arena.AgeHearts | components/RCop/Simulation.tsx:765 | hearts younger than 1500 ms remain |
| Arena.AgeMist | components/RCop/Simulation.tsx:759-763 | mist older than 2000 ms goes; the rest has radius min(60, age/10), so never more than 60 |
| Arena.MistRadiusEarly | components/RCop/Simulation.tsx:759-762 | a mist younger than 600 ms has radius exactly a tenth of its age |
| RCopSimulation.Move | components/RCop/Simulation.tsx:167-298 | a move changes only position, velocity and wander target, and ends inside the box inset by 4 |
| RCopSimulation.DrugComesFirst | components/RCop/Simulation.tsx:181-190 | a drug in range overrides everything: where the other agents are does not matter |
| RCopSimulation.ChaseWeakerFleeStronger | components/RCop/Simulation.tsx:193-239 | with no drug in range, the last provoking neighbour in list order is chased when weaker and fled when stronger |
| RCopSimulation.CalmWanders | components/RCop/Simulation.tsx:240-287 | with nothing in range to provoke it, the agent wanders |
| RCopSimulation.MovePass | components/RCop/Simulation.tsx:739-741 | the movement pass keeps everyone's identity and power; every mover outside the duel ends inside the box |
| RCopSimulation.RelocatedGrown | components/RCop/Simulation.tsx:167-298 | a movement pass keeps teams and histories |
| RCopSimulation.DrugStep | components/RCop/Simulation.tsx:305-349 | a drug is either left alone or used up, at most once |
| RCopSimulation.DrugTruce | components/RCop/Simulation.tsx:314-339 | both teams in the radius: everyone in it, the protected too, gains 5 and a 2 s truce, the drug is used up and an encounter is recorded; nobody else changes |
| RCopSimulation.DrugPoison | components/RCop/Simulation.tsx:340-349 | an expired drug among one team removes exactly the unprotected agents in its radius, keeping the order of the rest |
| RCopSimulation.DrugWaits | components/RCop/Simulation.tsx:340 | a drug within its lifetime among one team changes nothing |
| RCopSimulation.DrugPassEvolves | components/RCop/Simulation.tsx:301-353 | the drug pass keeps histories, distinct ids and positive powers |
| RCopSimulation.Contact | components/RCop/Simulation.tsx:364-435 | a contact is skipped exactly under the acting agent's truce; a victim is never protected, is the weaker one, and gives the killer 0.6× or 0.5× its power |
| RCopSimulation.ContactBeyondThreshold | components/RCop/Simulation.tsx:373-410 | beyond the acting team's threshold the weaker dies, or both gain when it is protected, in either team |
| RCopSimulation.ContactWithinThreshold | components/RCop/Simulation.tsx:437-525 | within the threshold two teams always grow together (every threshold is below 0.4) and one team leaves itself alone |
| RCopSimulation.ContactSparesProtected | components/RCop/Simulation.tsx:384-404 | a protected agent is never the victim |
| RCopSimulation.Boost | components/RCop/Simulation.tsx:499-502 | the two agents of a contact each gain exactly 3 in power (an agent meeting itself gains it twice); every other agent and every other field is unchanged |
| RCopSimulation.Meet | components/RCop/Simulation.tsx:364-525 | a meeting records an encounter exactly when the agents touch, the other is not marked and the contact counts as one |
| RCopSimulation.Visit | components/RCop/Simulation.tsx:360-527 | a visit never forgets an encounter |
| RCopSimulation.Round | components/RCop/Simulation.tsx:356-533 | the pass never forgets an encounter |
| RCopSimulation.MeetGrows | components/RCop/Simulation.tsx:381-501 | a meeting changes only powers, and only upwards |
| RCopSimulation.VisitGrows | components/RCop/Simulation.tsx:360-527 | a visit changes only powers, and only upwards |
| RCopSimulation.RoundGrows | components/RCop/Simulation.tsx:356-533 | the whole contact pass changes only powers, and only upwards |
| RCopSimulation.MeetMarksUnprotected | components/RCop/Simulation.tsx:376-410 | a meeting marks only unprotected agents for removal |
| RCopSimulation.VisitMarksUnprotected | components/RCop/Simulation.tsx:360-527 | a visit marks only unprotected agents |
| RCopSimulation.RoundMarksUnprotected | components/RCop/Simulation.tsx:356-533 | the pass marks only unprotected agents |
| RCopSimulation.RoundStep | components/RCop/Simulation.tsx:356-533 | one more visit keeps the marks on unprotected agents |
| RCopSimulation.ContactPassSparesProtected | components/RCop/Simulation.tsx:356-535 | after the contact pass, powers have only grown, ids stay distinct, and every protected agent survives |
| RCopSimulation.DuelDecides | components/RCop/Simulation.tsx:578-628 | in reach, the stronger finalist wins when the gap exceeds 0.3 and both grow otherwise; the survival verdict never comes |
| RCopSimulation.NeverSurvival | components/RCop/Simulation.tsx:585-612 | whatever the distance, the survival ending B is unreachable |
| RCopSimulation.VerdictIgnoresProtection | components/RCop/Simulation.tsx:578-612 | the verdict looks only at positions and powers |
| RCopSimulation.DuelGrowthNarrows | components/RCop/Simulation.tsx:613-628 | with one of each left, in reach and with a gap of at most 0.3, the final battle leaves both finalists exactly 3 stronger, the game going on with the duel recorded and the markers unchanged, and the gap no wider |
| RCopSimulation.Population | components/RCop/Simulation.tsx:88-135 | 400 initial agents, each spawned from its own draws |
| RCopSimulation.SpawnPlacement | components/RCop/Simulation.tsx:88-135 | reindeer 0–199 start on the left with power in [1.5, 4), rabbits 200–399 on the right with power in [1, 3); all unprotected, at rest, inside the arena |
| RCopSimulation.MoveOne | components/RCop/Simulation.tsx:167-298 | `updateAgentMovement` computes `Move` |
| RCopSimulation.MoveEveryone | components/RCop/Simulation.tsx:739-741 | the movement loop computes `MovePass`: agents move in list order and see earlier ones already moved |
| RCopSimulation.Poison | components/RCop/Simulation.tsx:340-349 | an expired drug's unprotected victims are removed one by one, each leaving a mark |
| RCopSimulation.PoisonStep | components/RCop/Simulation.tsx:342-347 | one turn of the poison loop removes and marks the next agent in the radius exactly when it is unprotected |
| RCopSimulation.RunDrugs | components/RCop/Simulation.tsx:301-353 | the loop over drug points computes `DrugPass` |
| RCopSimulation.MeetStep | components/RCop/Simulation.tsx:364-525 | the inner loop body computes `Meet` |
| RCopSimulation.VisitAgent | components/RCop/Simulation.tsx:360-527 | one agent's visit computes `Visit` |
| RCopSimulation.ContactPass | components/RCop/Simulation.tsx:356-533 | the contact loop computes `Round` |
| RCopSimulation.CloseIn | components/RCop/Simulation.tsx:638-656 | the finalists step toward each other; nobody's power changes and nobody joins or leaves |
| RCopSimulation.SettleDuel | components/RCop/Simulation.tsx:578-656 | a win removes the loser and marks them, decides the ending, keeps histories; growing gives both finalists the bonus (`Boost`), approaching moves them one step (`CloseIn`), survival changes nothing; no ending leaves everyone in place |
| RCopSimulation.ShieldKeeps | components/RCop/Simulation.tsx:698-708 | after the protection rule, exactly the lone survivors are protected, with ids, teams and powers kept |
| RCopSimulation.OnlyMember | components/RCop/Simulation.tsx:711-716 | the one member of a team of one is the one the scan finds |
| RCopSimulation.Finalist | components/RCop/Simulation.tsx:711-713 | the finalist of a team is one of its members; for a team of one it is that one member, the `team0[0]` of the code |
| RCopSimulation.Unshielded | components/RCop/Simulation.tsx:711-715 | with one of each left everyone loses protection and nothing else changes; both teams keep their sizes |
| RCopSimulation.Showdown | components/RCop/Simulation.tsx:711-728 | one of each: the result is the final battle between the two finalists (`DuelOutcome`): the duel is recorded unless under way and the finalists close in or grow, or the loser is removed and marked with ending A or C and the duel cleared |
| RCopSimulation.Finale | components/RCop/Simulation.tsx:697-728 | one of each: protection is lifted from everyone and the final battle runs on the unprotected list (`DuelOutcome` of `Unshielded`); an ending is A or C and matches who is left |
| RCopSimulation.Endgame | components/RCop/Simulation.tsx:660-729 | the whole new state is `EndOf`: no reindeer → A with a mark on every rabbit; no rabbits → C with marks on the reindeer; one of each → the final battle; otherwise exactly the lone survivors are protected, the markers are unchanged and no duel is under way |
| RCopSimulation.Simulation.constructor | components/RCop/Simulation.tsx:979-994 | the mount places the initial population; nothing runs and there is no ending; no drugs, markers, mists or hearts; full arena; the encounter clock is the mount time and the frame clock is 0 |
| RCopSimulation.Simulation.InitializeAgents | components/RCop/Simulation.tsx:88-135 | the agents are the initial population, with distinct ids and positive powers, in the full arena |
| RCopSimulation.Simulation.Start | components/RCop/Simulation.tsx:938-948 | fresh agents, the full arena, the encounter clock at now, running, no ending, no duel; drugs, marks, mists and hearts are kept |
| RCopSimulation.Simulation.Reset | components/RCop/Simulation.tsx:951-969 | stopped, no ending or duel, no drugs or effects, full arena, fresh agents, the encounter clock restarted; the frame clock is left as it was |
| RCopSimulation.Simulation.Click | components/RCop/Simulation.tsx:918-935 | a click adds a drug only while the game runs and has not ended |
| RCopSimulation.Simulation.MoveAll | components/RCop/Simulation.tsx:739-741 | the agents become `MovePass` of the old ones, keeping histories |
| RCopSimulation.Simulation.ProcessDrugInteractions | components/RCop/Simulation.tsx:301-353 | agents, marks and drugs become the drug pass's result, used drugs dropped; an encounter refreshes the encounter time |
| RCopSimulation.Simulation.ProcessAgentInteractions | components/RCop/Simulation.tsx:356-535 | the contact pass, then one filter removes the marked agents; an encounter refreshes the encounter time |
| RCopSimulation.Simulation.ProcessArenaShrink | components/RCop/Simulation.tsx:538-565 | nothing changes within 5 s of an encounter; after that the box shrinks by 10 per second of frame time and everyone is pushed back inside; the box stays centred and at least 200×200 |
| RCopSimulation.Simulation.CheckEndgame | components/RCop/Simulation.tsx:660-729 | agents, markers, duel and ending become `EndOf` of the old ones; an ending stops the game, is never B and matches who is left; otherwise exactly the lone survivors are protected |
| RCopSimulation.Simulation.Interact | components/RCop/Simulation.tsx:741-747 | movement, drugs and contact keep histories, distinct ids and positive powers |
| RCopSimulation.Simulation.Conclude | components/RCop/Simulation.tsx:748-749 | shrink and endgame keep the box valid and the game ended exactly when there is an ending |
| RCopSimulation.Simulation.Age | components/RCop/Simulation.tsx:752-765 | drugs expire and marks, mists and hearts age |
| RCopSimulation.Simulation.Tick | components/RCop/Simulation.tsx:732-778 | a frame does nothing unless running; otherwise histories are kept, no expired drug remains, and in a game still going exactly the lone survivors are protected |
| EarlySimulation.Move | components/Simulation.tsx:168-357 | a move changes only position, velocity and wander target, and ends inside the box inset by 4 |
| EarlySimulation.ProtectedOnlyWanders | components/Simulation.tsx:178-232 | a protected agent wanders whatever is around it |
| EarlySimulation.ProtectedUnseen | components/Simulation.tsx:159-165 | protected agents are invisible to a moving agent |
| EarlySimulation.ChaseWeakerFleeStronger | components/Simulation.tsx:251-298 | with no drug in range an unprotected agent chases the last provoking agent it senses when weaker and flees it when stronger |
| EarlySimulation.MovePass | components/Simulation.tsx:625-627 | the movement pass keeps everyone's identity and power; every mover outside the duel ends inside the box |
| EarlySimulation.DrugStep | components/Simulation.tsx:360-407 | a drug is either left alone or used up, at most once |
| EarlySimulation.DrugTruce | components/Simulation.tsx:374-399 | both teams reached: every unprotected agent in the radius gains 5 and a 2 s truce; nobody else changes |
| EarlySimulation.DrugPoison | components/Simulation.tsx:400-407 | an expired drug reaching one team removes exactly the agents it reaches, keeping the order of the rest |
| EarlySimulation.DrugSparesProtected | components/Simulation.tsx:366 | a drug never removes a protected agent |
| EarlySimulation.DrugPassEvolves | components/Simulation.tsx:360-411 | the drug pass keeps histories, distinct ids and positive powers |
| EarlySimulation.Contact | components/Simulation.tsx:427-478 | a contact is ignored exactly under truce or when either side is protected; only the visitor can die, when the other is stronger, giving 0.5× its power |
| EarlySimulation.ContactRules | components/Simulation.tsx:432-478 | the visitor dies exactly when the other is stronger beyond the threshold, in either team; within the threshold two teams grow together |
| EarlySimulation.Meet | components/Simulation.tsx:424-480 | a meeting records an encounter exactly when the other is sensed, not marked, and the contact counts as one |
| EarlySimulation.OnlyVisitorDies | components/Simulation.tsx:432-451 | a meeting can only mark the visitor, exactly when the other is sensed, not marked and stronger beyond the threshold |
| EarlySimulation.Visit | components/Simulation.tsx:419-481 | a visit never forgets an encounter |
| EarlySimulation.Round | components/Simulation.tsx:414-488 | the pass never forgets an encounter |
| EarlySimulation.MeetGrows | components/Simulation.tsx:437-478 | a meeting changes only powers, and only upwards |
| EarlySimulation.VisitGrows | components/Simulation.tsx:419-481 | a visit changes only powers, and only upwards |
| EarlySimulation.RoundGrows | components/Simulation.tsx:414-488 | the whole contact pass changes only powers, and only upwards |
| EarlySimulation.MeetMarksUnprotected | components/Simulation.tsx:427-451 | a meeting marks only unprotected agents |
| EarlySimulation.VisitMarksUnprotected | components/Simulation.tsx:419-481 | a visit marks only unprotected agents |
| EarlySimulation.RoundStep | components/Simulation.tsx:414-488 | one more visit keeps the marks on unprotected agents |
| EarlySimulation.RoundMarksUnprotected | components/Simulation.tsx:414-488 | the pass marks only unprotected agents |
| EarlySimulation.ContactPassSparesProtected | components/Simulation.tsx:414-488 | after the contact pass, powers have only grown, ids stay distinct, and every protected agent survives |
| EarlySimulation.Judge | components/Simulation.tsx:549-575 | the duel decides exactly when the finalists were within 8 before the step |
| EarlySimulation.JudgeDecides | components/Simulation.tsx:551-569 | in reach, A when the rabbit is stronger beyond 0.25, C when the reindeer is, B otherwise |
| EarlySimulation.SurvivalReached | components/Simulation.tsx:565-569 | the survival ending B is reachable: equal finalists in reach both survive |
| EarlySimulation.JudgeIgnoresProtection | components/Simulation.tsx:550-575 | the decision looks only at positions and powers |
| EarlySimulation.CloseIn | components/Simulation.tsx:525-547 | the finalists step toward each other; nobody's power changes and nobody joins or leaves |
| EarlySimulation.FinalBattle | components/Simulation.tsx:521-576 | the ending is the pre-step decision; a win removes the loser and decides the ending; otherwise the finalists only step |
| EarlySimulation.StaysUnshielded | components/Simulation.tsx:584-594 | with both teams larger than one, nobody is or becomes protected |
| EarlySimulation.Finalists | components/Simulation.tsx:597-604 | everyone loses protection (`Unshielded`) and the finalists are the members of the two teams of one (`Finalist`), with the duel decision unchanged by the lifted protection |
| EarlySimulation.Finale | components/Simulation.tsx:521-614 | one of each: the result is the final battle on the unprotected list (`DuelOutcome`): both finalists step toward each other; apart, the duel is recorded unless under way; in reach, the loser (nobody on B) is removed, the duel cleared and the ending is the decision on the two finalists |
| EarlySimulation.Endgame | components/Simulation.tsx:579-615 | the whole new state is `EndOf`: no wipe-out ending; one of each fights the final battle; otherwise the protection rule applies and the game goes on with no duel |
| EarlySimulation.Population | components/Simulation.tsx:88-135 | 400 initial agents, each spawned from its own draws |
| EarlySimulation.SpawnPlacement | components/Simulation.tsx:88-135 | reindeer 0–199 on the left and rabbits 200–399 on the right, all with power in [1, 3), unprotected, at rest, inside the arena |
| EarlySimulation.MoveOne | components/Simulation.tsx:168-357 | `updateAgentMovement` computes `Move` |
| EarlySimulation.MoveEveryone | components/Simulation.tsx:625-627 | the movement loop computes `MovePass` |
| EarlySimulation.Poison | components/Simulation.tsx:400-407 | an expired drug's victims are removed one by one, each leaving a mark |
| EarlySimulation.RunDrugs | components/Simulation.tsx:360-411 | the loop over drug points computes `DrugPass` |
| EarlySimulation.MeetStep | components/Simulation.tsx:424-480 | the inner loop body computes `Meet` |
| EarlySimulation.VisitAgent | components/Simulation.tsx:419-481 | one agent's visit computes `Visit` |
| EarlySimulation.ContactPass | components/Simulation.tsx:414-488 | the contact loop computes `Round` |
| EarlySimulation.Simulation.constructor | components/Simulation.tsx:847-862 | the mount places the initial population; nothing runs and there is no ending; no drugs, markers, mists or hearts; full arena; the encounter clock is the mount time and the frame clock is 0 |
| EarlySimulation.Simulation.InitializeAgents | components/Simulation.tsx:88-135 | the agents are the initial population, with distinct ids and positive powers, in the full arena |
| EarlySimulation.Simulation.Start | components/Simulation.tsx:815-825 | fresh agents, the full arena, the encounter clock at now, running, no ending, no duel; drugs, marks, mists and hearts are kept |
| EarlySimulation.Simulation.Reset | components/Simulation.tsx:828-844 | stopped, no ending or duel, no drugs or effects, full arena, fresh agents, the encounter clock restarted; the frame clock is left as it was |
| EarlySimulation.Simulation.Click | components/Simulation.tsx:795-812 | a click adds a drug only while the game runs and has not ended |
| EarlySimulation.Simulation.MoveAll | components/Simulation.tsx:625-627 | the agents become `MovePass` of the old ones, keeping histories |
| EarlySimulation.Simulation.ProcessDrugInteractions | components/Simulation.tsx:360-411 | agents, marks and drugs become the drug pass's result, used drugs dropped; an encounter refreshes the encounter time |
| EarlySimulation.Simulation.ProcessAgentInteractions | components/Simulation.tsx:414-488 | the contact pass, then one filter removes the marked agents; an encounter refreshes the encounter time |
| EarlySimulation.Simulation.ProcessArenaShrink | components/Simulation.tsx:491-518 | nothing changes within 5 s of an encounter; after that the box shrinks by 10 per second of frame time and everyone is pushed back inside |
| EarlySimulation.Simulation.CheckEndgame | components/Simulation.tsx:579-615 | agents, duel and ending become `EndOf` of the old ones, markers untouched; an ending stops the game; otherwise exactly the lone survivors are protected and, unless one of each was left, no duel is under way |
| EarlySimulation.Simulation.Interact | components/Simulation.tsx:625-631 | movement, drugs and contact keep histories, distinct ids and positive powers |
| EarlySimulation.Simulation.Conclude | components/Simulation.tsx:631-633 | shrink and endgame keep the box valid and the game ended exactly when there is an ending, which matches who is left |
| EarlySimulation.Simulation.Age | components/Simulation.tsx:636-649 | drugs expire and marks, mists and hearts age |
| EarlySimulation.Simulation.Tick | components/Simulation.tsx:618-657 | a frame does nothing unless running; otherwise histories are kept, no expired drug remains, and in a game still going exactly the lone survivors are protected |

## Left out

- Drawing and markup: the canvas `draw` functions, JSX, the page layout and the render functions of `App.tsx` are not modelled.
- React state and the animation loop: `useState`, `useEffect`, `requestAnimationFrame` and `cancelAnimationFrame` are not modelled. Each React state is a class field, and a frame is one call to `Tick` or `Update`.
- The simulations' `gameLoop` reads `gameEnded` through a stale closure. The model keeps an explicit `ended` field instead.
- The clock and randomness are parameters: `now` for `Date.now`/`performance.now`, and draw sequences and `Noise`/`unit` functions for `Math.random`, `Math.sqrt`, `Math.sin` and `Math.cos`.
- One `now` serves a whole frame, where the code reads the clock again in each phase.
- Numbers are mathematical reals and integers: floating-point rounding is not modelled.
- `localStorage`, `FileReader`, `fs` and the recovery of the previous catalogue by regular expression and `JSON.parse` are left out. The previous catalogue is a parameter, and the directory is a list of files.
- `scripts/generateStories.ts` is not part of this model: it is file I/O, and its one rule (title from file name) is the same as in `scripts/generateStoriesData.ts`.
- `services/geminiService.ts` is not part of this model: it only wraps a remote API.
- `localeCompare` on date strings is plain lexicographic order. Characters are code points, not UTF-16 units.
- `Array.prototype.sort` is a stable insertion sort with the same comparator. Only its result is modelled, not the engine's algorithm.
- Objects are shared by reference in the JavaScript code; the model uses values instead. Each update in place becomes an update at the same list position, and the final filter of a pass is modelled as a filter.
- Hearts and pink mist are aged but never created: their spawning has a cooldown, only drives the drawing, and changes no rule. This holds for both simulations, the heart cooldown field included.
- Drug ids are the click time (`Date.now()`). Two clicks within one millisecond would share an id; the model uses the same ids and does not rule this out.
- Arena.PowerDiff: the bounds are stated only for positive powers. Powers start positive and only grow, which `Evolves` carries through every phase.
- RCopSimulation.Simulation.Interact, RCopSimulation.Simulation.Conclude, RCopSimulation.Simulation.Tick, EarlySimulation.Simulation.Interact, EarlySimulation.Simulation.Conclude and EarlySimulation.Simulation.Tick: only the facts their phases keep are restated (histories, distinct ids, positive powers, the box, the ending and protection). The exact new state of each phase is stated by the phase methods they call: `MoveAll`, `ProcessDrugInteractions`, `ProcessAgentInteractions`, `ProcessArenaShrink`, `CheckEndgame` and `Age`.
