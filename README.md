# Planning board: a verified model of the task-board engine

The application is a single-page planning board (`src/App.tsx`). Tasks
(`Tache`) carry a title, one of four business segments and one of three
lifecycle statuses ("Terminé", "En cours", "À venir"). Optionally they also
carry a date and notes. The board shows:

- the tasks filtered by a segment selector and by a case-insensitive search
  on title or notes (`affichage`);
- that list split into three status lanes (`parStatut`);
- four counters.

Users add tasks through a small form, delete them, import a JSON list, and
drag cards. A drag within a lane is meant to reorder it; as written it leaves
the store unchanged (see Findings). A drag onto a card of another lane moves
the dragged card to that lane.

The model is in Dafny and has these modules:

- `Wrappers` (wrappers.dfy): `Option`.
- `Text` (text.dfy): `toLowerCase`, `includes` and `trim`.
- `Seqs` (seqs.dfy): `filter`, order-preserving subsequences, `indexOf` and
  the `arrayMove` of the sortable-list library, given its splice semantics.
- `Tasks` (tasks.dfy): the records, the display projection, the lanes, the
  counters and the pure parts of delete and add.
- `Drag` (drag.dfy): the drag-end engine. This covers the lane lookup, the
  drop plan, the stable sort into the new id order, and the two store
  rewrites. It also has the rewrite the same-lane branch evidently intends
  (see Findings).
- `Board` (board.dfy): the component state, as a class `App` whose methods
  update `taches`, `recherche` and `filtreSegment` in place. It also has the
  add form as a class `FormAjout` holding its draft.
- `Scenarios` (scenarios.dfy): worked drops and searches on symbolic cards.

Two assumptions run through the model:

- Tasks have unique ids. This is the store invariant, `Tasks.UniqueIds`.
- The lanes a drop is planned on are built from the same store the update
  rewrites.

`App.OnDragEnd` follows the corrected same-lane rewrite. The rewrite as
written at line 210 is `Drag.DragEnd`, and its lemmas show what it does.

Two facts about the code that a reader might not expect:

- After a cross-lane drop the card keeps its slot in the store, so the
  destination lane lists it in store order (`Scenarios.CrossLaneDropLanes`).
- `Tache` also declares `ordre?: number`, which the program never reads or
  writes; the model keeps it.

## Model

| member | source | states |
|---|---|---|
| Text.Lower | src/App.tsx:178 | Lower-casing keeps the length, turns each upper-case letter A-Z into its lower-case letter and keeps every other character |
| Text.LowerIdempotent | src/App.tsx:178 | Lower-casing an already lower-cased string changes nothing |
| Text.ContainsAt | src/App.tsx:181 | `includes` holds exactly when the substring is the slice of the text at some offset |
| Text.MissingCharacterNotContained | src/App.tsx:181 | A query holding a character the text lacks is not included in it |
| Text.TrimEmptyIffBlank | src/App.tsx:113 | `trim()` yields the empty string exactly when the string is all white space |
| Seqs.Filter | src/App.tsx:179-182 | `filter` keeps exactly the elements passing the predicate and never grows |
| Seqs.FilterIsSubsequence | src/App.tsx:179-182 | `filter` keeps the survivors in their original order |
| Seqs.FilterCount | src/App.tsx:186-188 | `filter` keeps every copy of an accepted element and none of a rejected one |
| Seqs.IndexOf | src/App.tsx:209 | `indexOf` gives the first position of the value, or -1 exactly when it is absent |
| Seqs.ArrayMove | src/App.tsx:208 | `arrayMove` keeps length and multiset, puts the moved element at `to`, and the rest keep their relative order |
| Seqs.ArrayMoveShifts | src/App.tsx:208 | After `arrayMove` the elements between `from` and `to` shift one place toward `from`; the others stay put |
| Tasks.Ids | src/App.tsx:207 | `map(i => i.id)` lists each task's id at its position |
| Tasks.FindIndex | src/App.tsx:201-202 | `findIndex` gives the first task with the id, or -1 exactly when there is none |
| Tasks.FindById | src/App.tsx:205 | `find` gives the first task of the store with that id, and nothing exactly when no task has it |
| Tasks.AffichageSpec | src/App.tsx:177-183 | The display is an order-preserving subsequence of the store; a task is in it iff it passes the segment filter and the case-insensitive title-or-notes search; unique ids stay unique |
| Tasks.EmptySearchMatchesAll | src/App.tsx:178-181 | An empty search matches every task |
| Tasks.UnfilteredShowsAll | src/App.tsx:177-183 | With "Tous" and an empty search the display is the whole store, in order |
| Tasks.LaneSpec | src/App.tsx:185-189 | Each lane is the order-preserving subsequence of the display holding exactly the tasks with that status |
| Tasks.LanesMultiset | src/App.tsx:185-189 | Together the three lanes hold each displayed task exactly as often as the display does |
| Tasks.LanesDisjoint | src/App.tsx:185-189 | No task is in two lanes |
| Tasks.LanesPartition | src/App.tsx:185-189 | The lanes are disjoint, their multisets add up to the display's, and their lengths sum to its length |
| Tasks.CompteursOf | src/App.tsx:218-221 | `total` is the display length, each lane counter is its lane's length, and `total` equals `termines + enCours + aVenir` |
| Tasks.WithoutSpec | src/App.tsx:191 | Delete keeps the other tasks in order and leaves no task with the id; with unique ids it removes one task if the id was present, none otherwise |
| Tasks.AddSpec | src/App.tsx:192 | After an add, ids are unique iff they were and the new id is fresh; the new task heads the display when it passes the filters |
| Tasks.PermutationUniqueIds | src/App.tsx:203-215 | Reordering a store keeps its ids unique |
| Drag.LaneOf | src/App.tsx:196-197 | The lane lookup finds a lane holding the id, the first in key order, and nothing exactly when no lane holds it |
| Drag.KeyOrder | src/App.tsx:185-189 | The lanes' keys are visited in the board's lane order: "Terminé", "En cours", "À venir" |
| Drag.LaneOfFindsDisplayed | src/App.tsx:196-197 | On lanes built from a display, the lookup succeeds iff the card is displayed, whatever the ids |
| Drag.LaneOfDisplayed | src/App.tsx:196-197 | On lanes built from a display with unique ids, the lookup names the displayed card's status |
| Drag.PlanDrop | src/App.tsx:195-202 | A drop is ignored exactly when there is no target, the card is dropped on itself, or a lookup fails; a same-lane plan has both cards' valid, distinct positions in that lane; a cross-lane plan targets the other card's lane |
| Drag.InsertByRank | src/App.tsx:209 | One insertion step of the stable sort keeps the multiset and sortedness by rank |
| Drag.SortByRank | src/App.tsx:209 | The comparator sort yields a permutation of the lane sorted by rank in the new order |
| Drag.SortFollowsOrder | src/App.tsx:209 | Sorting a lane with unique ids by a matching id list reads exactly as that list |
| Drag.ReorderedFollowsMove | src/App.tsx:207-209 | `reordered` is the lane permuted so its ids read as `arrayMove` of the lane's ids, with the dragged card at the target's slot |
| Drag.ReplaceFromLaneIsIdentity | src/App.tsx:210 | With unique ids, the rewrite at line 210 hands every card back unchanged |
| Drag.SetStatutChangesOnlyMoved | src/App.tsx:212 | The cross-lane rewrite changes only the moved task's status to the destination; ids, order and other tasks are kept |
| Drag.SetStatutMovesToDestLane | src/App.tsx:212 | A displayed card moved across lanes shows up in the destination lane with its new status |
| Drag.DraggedCardInStore | src/App.tsx:205 | A card found by the lane lookup is in the store, so `find(...)!` succeeds |
| Drag.DragEndIgnores | src/App.tsx:195-198 | No target, a drop on itself, or a dragged or target card that is not displayed leaves the store unchanged, whatever the ids |
| Drag.SameLaneDropKeepsStore | src/App.tsx:206-210 | As written, a same-lane drop in a store with unique ids leaves the store equal to before: length, contents and order |
| Drag.CrossLaneDropSetsStatus | src/App.tsx:211-212 | A cross-lane drop sets exactly the dragged task's status to the destination lane and keeps ids unique |
| Drag.DragEndKeepsIds | src/App.tsx:203-215 | As written, any drop keeps the store's ids, in order |
| Drag.SpliceLane | src/App.tsx:210 | The corrected rewrite keeps the length and leaves every task outside the lane in its slot |
| Drag.SpliceLaneFollowsReordered | src/App.tsx:210 | Read through the lane's ids, the corrected rewrite lists exactly the reordered lane |
| Drag.SpliceWholeLane | src/App.tsx:210 | When the whole store is the lane, the corrected rewrite is the reordered lane |
| Drag.SpliceCount | src/App.tsx:210 | The corrected rewrite swaps the lane's cards for the reordered ones, copy by copy |
| Drag.SpliceReorderedLane | src/App.tsx:206-210 | Splicing the sorted lane back lists the lane in `arrayMove` order |
| Drag.SpliceReorderedLanePermutes | src/App.tsx:206-210 | Splicing the sorted lane back only permutes the store |
| Drag.DragEndIntendedAgrees | src/App.tsx:194-216 | Outside same-lane drops, the corrected handler equals the handler as written |
| Drag.IntendedSameLaneDrop | src/App.tsx:206-210 | Corrected same-lane drop: the lane reads in `arrayMove` order, tasks outside the lane keep their slots, and the store is permuted |
| Drag.DragEndIntendedKeepsIds | src/App.tsx:203-215 | The corrected handler keeps ids unique, the length, and the set of ids |
| Board.App.constructor | src/App.tsx:167-169 | Starts with the given store, an empty search and "Tous" |
| Board.App.CompteursCourants | src/App.tsx:218-221 | The counters of the current view: the display length, each lane's length, and the lane counts summing to the total |
| Board.App.SetRecherche | src/App.tsx:244 | Typing in the search box sets only the search text |
| Board.App.SetFiltreSegment | src/App.tsx:248 | Choosing a segment sets only the filter |
| Board.App.OnDelete | src/App.tsx:191 | The store becomes the others in order; no task keeps the id; unique ids stay unique, one shorter iff the id was present |
| Board.App.OnAdd | src/App.tsx:192 | The store becomes `[n] + prev`; ids are unique iff they were and `n`'s id is fresh |
| Board.App.OnImport | src/App.tsx:252 | An import replaces the whole store and nothing else |
| Board.App.OnDragEnd | src/App.tsx:194-216 | The store becomes the corrected drag-end result; with unique ids the ids stay unique and the length and set of ids are kept; filters unchanged |
| Board.NouveauBrouillon | src/App.tsx:112 | The empty draft: given id, empty title, "Builder", "En cours", no date or notes |
| Board.FormAjout.constructor | src/App.tsx:112 | The form starts on an empty draft |
| Board.FormAjout.EditTitre | src/App.tsx:117 | Editing the title changes only the draft's title |
| Board.FormAjout.EditSegment | src/App.tsx:119 | Choosing a segment changes only the draft's segment |
| Board.FormAjout.EditStatut | src/App.tsx:120 | Choosing a status changes only the draft's status |
| Board.FormAjout.EditDate | src/App.tsx:121 | Editing the date changes only the draft's date |
| Board.FormAjout.EditNotes | src/App.tsx:123 | Editing the notes changes only the draft's notes |
| Board.FormAjout.Submit | src/App.tsx:113 | A blank title adds nothing and keeps the draft; otherwise the draft heads the store and a new draft starts; a fresh id keeps ids unique |
| Scenarios.OneLaneBoard | src/App.tsx:185-189 | Three "En cours" cards fill only the "En cours" lane, in store order |
| Scenarios.SameLaneDropAsWritten | src/App.tsx:206-210 | Dragging c onto a in one lane plans the move c, a, b, yet the store as written stays a, b, c |
| Scenarios.SameLaneDropIntended | src/App.tsx:207-209 | With the corrected rewrite, the same drop gives c, a, b |
| Scenarios.CrossLaneDropScenario | src/App.tsx:211-212 | Dragging an "À venir" card onto a "Terminé" card restatuses it in place |
| Scenarios.CrossLaneDropLanes | src/App.tsx:185-189 | After that drop the "Terminé" lane reads the moved card then the old one, in store order |
| Scenarios.SearchIgnoresCase | src/App.tsx:177-183 | Searching "GA" keeps "Gala" and drops "Golf" |

## Left out

- Rendering: the presentational components, the JSX layout, the drag sensors and the `DndContext` gesture capture. A drop is the pair (dragged id, optional target id) it delivers.
- `useLocalStorage`: browser storage I/O. The starting store is a constructor parameter, so the example tasks (`EXEMPLES`) are not modelled.
- JSON export, and the file reading and parsing of JSON import: file I/O. A successful import is `OnImport` replacing the store; a failed parse leaves it unchanged.
- PDF export: asynchronous, and it uses floating-point page geometry.
- `crypto.randomUUID`: a fresh id is a parameter (`freshId`). Its freshness is a hypothesis of the `Submit` lemma, not something the model guarantees.
- Text.Lower: lower-cases only the ASCII letters A-Z, not the full Unicode `toLowerCase`.
- The header title and period state: free text with no logic.
- React's update queue. The model assumes the store the lanes were computed from is the `prev` the update sees.
- `arrayMove`'s library code. It is modelled by its splice semantics: remove at `from`, insert at `to`.
- Board.App.OnImport: does not check that imported ids are unique; the program does not check either. It also assumes the imported records are well-formed `Tache` values; the program does not check their shape or that each status is one of the three. A record with another status would count in `total` but sit in no lane, and one without a title would make the display computation throw.

## Findings

| source | as written | input that shows it | evidently intended | confidence | as-written member | corrected member |
|---|---|---|---|---|---|---|
| src/App.tsx:210 | The same-lane branch replaces each lane card with the card of `reordered` that has the same id, which is the card itself, so the store comes back unchanged and the new order is dropped | Three "En cours" cards a, b, c with distinct ids, filter "Tous", empty search; drag c onto a: the store stays a, b, c | The lane's cards take the order `arrayMove` computed, in the slots they hold in the store: c, a, b | high, not executed | Scenarios.SameLaneDropAsWritten | Drag.IntendedSameLaneDrop |
