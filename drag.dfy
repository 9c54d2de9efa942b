/**
 * The drag-end engine: which lanes the dragged card and its drop target sit
 * in, the same-lane reorder (`arrayMove`, then a sort of the lane into the new
 * id order, then the store rewrite) and the cross-lane status change.
 */
module Drag {
  import opened Wrappers
  import opened Seqs
  import opened Tasks

  // ---------------------------------------------------------------- lane lookup

  /** Position of a status among the lanes' keys, which are visited in the board's lane order. */
  function KeyOrder(s: Statut): (r: nat)
    ensures r < |STATUTS| && STATUTS[r] == s
  {
    match s
    case Termine => 0
    case EnCours => 1
    case AVenir => 2
  }

  /** The first lane, in key order, holding a card with the id; none when no lane does. */
  function LaneOf(par: ParStatut, id: string): (r: Option<Statut>)
    ensures r.Some? <==> HasId(par.termines, id) || HasId(par.enCours, id) || HasId(par.aVenir, id)
    ensures r.Some? ==> HasId(par.Get(r.value), id)
    ensures r.Some? ==> forall s :: KeyOrder(s) < KeyOrder(r.value) ==> !HasId(par.Get(s), id)
  {
    if HasId(par.termines, id) then Some(Termine)
    else if HasId(par.enCours, id) then Some(EnCours)
    else if HasId(par.aVenir, id) then Some(AVenir)
    else None
  }

  /** On lanes built from a display, the lookup finds a card exactly when it is displayed. */
  lemma LaneOfFindsDisplayed(affichage: seq<Tache>, id: string)
    ensures LaneOf(ParStatutOf(affichage), id).Some? <==> HasId(affichage, id)
  {
    var par := ParStatutOf(affichage);
    var r := LaneOf(par, id);
    if r.Some? {
      var t := HasIdMember(par.Get(r.value), id);
      MemberHasId(affichage, t);
    }
    if HasId(affichage, id) {
      var t := HasIdMember(affichage, id);
      MemberHasId(par.Get(t.statut), t);
    }
  }

  /** On lanes built from a display with unique ids, the lookup answers the displayed card's own status. */
  lemma LaneOfDisplayed(affichage: seq<Tache>, id: string)
    requires UniqueIds(affichage)
    ensures forall t :: t in affichage && t.id == id ==> LaneOf(ParStatutOf(affichage), id) == Some(t.statut)
  {
    var par := ParStatutOf(affichage);
    forall u | u in affichage && u.id == id ensures LaneOf(par, id) == Some(u.statut) {
      MemberHasId(affichage, u);
      LaneOfFindsDisplayed(affichage, id);
      var t := HasIdMember(par.Get(LaneOf(par, id).value), id);
      SameIdSameTask(affichage, t, u);
    }
  }

  // ---------------------------------------------------------------- the drop

  /** What lines 195-202 decide before the store update. */
  datatype Drop =
    | Ignore
    | SameLane(col: Statut, items: seq<Tache>, from: nat, to: nat)
    | CrossLane(dest: Statut)

  /**
   * Ignore a drop onto nothing, onto the dragged card itself, or when either
   * id is in no lane; otherwise compare the two lanes and, for a move within
   * one lane, take both cards' positions in it.
   */
  function PlanDrop(par: ParStatut, activeId: string, over: Option<string>): (d: Drop)
    ensures d.Ignore? <==>
              over.None? || activeId == over.value || LaneOf(par, activeId).None? || LaneOf(par, over.value).None?
    ensures d.SameLane? ==>
              LaneOf(par, activeId) == Some(d.col) && LaneOf(par, over.value) == Some(d.col)
              && d.items == par.Get(d.col) && d.from < |d.items| && d.to < |d.items| && d.from != d.to
              && d.items[d.from].id == activeId && d.items[d.to].id == over.value
    ensures d.CrossLane? ==>
              LaneOf(par, over.value) == Some(d.dest) && LaneOf(par, activeId).Some?
              && LaneOf(par, activeId) != Some(d.dest)
  {
    if over.None? || activeId == over.value then Ignore
    else
      var sourceCol := LaneOf(par, activeId);
      var destCol := LaneOf(par, over.value);
      if sourceCol.None? || destCol.None? then Ignore
      else if sourceCol.value == destCol.value then
        var items := par.Get(sourceCol.value);
        SameLane(sourceCol.value, items, FindIndex(items, activeId), FindIndex(items, over.value))
      else CrossLane(destCol.value)
  }

  // ---------------------------------------------------------------- the lane sort

  /** The sort key: the position of the card's id in the new id order. */
  function Rank(order: seq<string>, t: Tache): int {
    IndexOf(order, t.id)
  }

  /** Ranks never decrease from one element to the next. */
  ghost predicate SortedByRank(s: seq<Tache>, order: seq<string>) {
    forall i :: 0 < i < |s| ==> Rank(order, s[i - 1]) <= Rank(order, s[i])
  }

  lemma SortedTail(s: seq<Tache>, order: seq<string>)
    requires s != [] && SortedByRank(s, order)
    ensures SortedByRank(s[1..], order)
  {
    forall i | 0 < i < |s[1..]| ensures Rank(order, s[1..][i - 1]) <= Rank(order, s[1..][i]) {
      assert s[1..][i - 1] == s[i] && s[1..][i] == s[i + 1];
    }
  }

  lemma SortedCons(y: Tache, s: seq<Tache>, order: seq<string>)
    requires SortedByRank(s, order) && (s != [] ==> Rank(order, y) <= Rank(order, s[0]))
    ensures SortedByRank([y] + s, order)
  {
    forall i | 0 < i < |[y] + s| ensures Rank(order, ([y] + s)[i - 1]) <= Rank(order, ([y] + s)[i]) {
      if i > 1 {
        assert ([y] + s)[i - 1] == s[i - 2] && ([y] + s)[i] == s[i - 1];
      }
    }
  }

  /** Insert `x` before the first element of `s` that does not rank below it. */
  function InsertByRank(x: Tache, s: seq<Tache>, order: seq<string>): (r: seq<Tache>)
    ensures multiset(r) == multiset(s) + multiset{x}
    ensures r[0] == x || (s != [] && r[0] == s[0])
    ensures SortedByRank(s, order) ==> SortedByRank(r, order)
  {
    if s == [] || Rank(order, x) <= Rank(order, s[0]) then
      assert SortedByRank(s, order) ==> SortedByRank([x] + s, order) by {
        if SortedByRank(s, order) {
          SortedCons(x, s, order);
        }
      }
      [x] + s
    else
      var tail := InsertByRank(x, s[1..], order);
      assert s == [s[0]] + s[1..];
      assert SortedByRank(s, order) ==> SortedByRank([s[0]] + tail, order) by {
        if SortedByRank(s, order) {
          SortedTail(s, order);
          SortedCons(s[0], tail, order);
        }
      }
      [s[0]] + tail
  }

  /**
   * A copy of the lane sorted by each card's rank, its id's position in
   * `order`. The sort is stable, so it is modelled by an insertion sort: an element
   * goes in front of the later ones that rank the same.
   */
  function SortByRank(items: seq<Tache>, order: seq<string>): (r: seq<Tache>)
    ensures multiset(r) == multiset(items)
    ensures SortedByRank(r, order)
  {
    if items == [] then []
    else
      assert items == [items[0]] + items[1..];
      InsertByRank(items[0], SortByRank(items[1..], order), order)
  }

  lemma {:induction false} IncreasingAtLeastIndex(v: seq<int>, k: nat)
    requires forall i :: 0 <= i < |v| ==> 0 <= v[i]
    requires forall i :: 0 < i < |v| ==> v[i - 1] < v[i]
    requires k < |v|
    ensures v[k] >= k
  {
    if k > 0 {
      IncreasingAtLeastIndex(v, k - 1);
    }
  }

  lemma {:induction false} IncreasingAtMostIndex(v: seq<int>, k: nat)
    requires forall i :: 0 <= i < |v| ==> v[i] < |v|
    requires forall i :: 0 < i < |v| ==> v[i - 1] < v[i]
    requires k < |v|
    ensures v[k] <= k
    decreases |v| - k
  {
    if k + 1 < |v| {
      IncreasingAtMostIndex(v, k + 1);
    }
  }

  /** Sorted cards with distinct ids, all named in `order`, have strictly increasing ranks. */
  lemma RanksIncrease(r: seq<Tache>, order: seq<string>)
    requires UniqueIds(r) && SortedByRank(r, order)
    requires forall i :: 0 <= i < |r| ==> r[i].id in order
    ensures forall i :: 0 < i < |r| ==> Rank(order, r[i - 1]) < Rank(order, r[i])
  {
    forall i | 0 < i < |r| ensures Rank(order, r[i - 1]) < Rank(order, r[i]) {
      assert Ids(r)[i - 1] != Ids(r)[i];
      var a, b := IndexOf(order, r[i - 1].id), IndexOf(order, r[i].id);
      assert order[a] == r[i - 1].id && order[b] == r[i].id;
    }
  }

  /** Cards with strictly increasing ranks, as many as ids in `order`, read exactly as `order`. */
  lemma IncreasingRanksFollowOrder(r: seq<Tache>, order: seq<string>)
    requires |r| == |order|
    requires forall i :: 0 <= i < |r| ==> r[i].id in order
    requires forall i :: 0 < i < |r| ==> Rank(order, r[i - 1]) < Rank(order, r[i])
    ensures Ids(r) == order
  {
    var v := seq(|r|, i requires 0 <= i < |r| => Rank(order, r[i]));
    forall k | 0 <= k < |r| ensures Ids(r)[k] == order[k] {
      IncreasingAtLeastIndex(v, k);
      IncreasingAtMostIndex(v, k);
      assert order[v[k]] == r[k].id;
    }
  }

  /**
   * Sorting a lane with unique ids by positions in an id list that has one
   * entry per lane card and names every card puts the cards in exactly that
   * id order.
   */
  lemma SortFollowsOrder(items: seq<Tache>, order: seq<string>)
    requires UniqueIds(items)
    requires |order| == |items|
    requires forall t :: t in items ==> t.id in order
    ensures Ids(SortByRank(items, order)) == order
  {
    var r := SortByRank(items, order);
    assert |r| == |items| by {
      assert |multiset(r)| == |multiset(items)|;
    }
    PermutationUniqueIds(items, r);
    forall i | 0 <= i < |r| ensures r[i].id in order {
      assert r[i] in multiset(items);
    }
    RanksIncrease(r, order);
    IncreasingRanksFollowOrder(r, order);
  }

  /** `reordered`: the lane sorted into the order `arrayMove` gives its ids. */
  function Reordered(items: seq<Tache>, from: nat, to: nat): seq<Tache>
    requires from < |items| && to < |items|
  {
    SortByRank(items, ArrayMove(Ids(items), from, to))
  }

  /**
   * For a lane with unique ids, `reordered` is the lane permuted so that its
   * ids read as `arrayMove` of the lane's ids: the dragged card lands at the
   * target's slot.
   */
  lemma ReorderedFollowsMove(items: seq<Tache>, from: nat, to: nat)
    requires from < |items| && to < |items|
    requires UniqueIds(items)
    ensures multiset(Reordered(items, from, to)) == multiset(items)
    ensures Ids(Reordered(items, from, to)) == ArrayMove(Ids(items), from, to)
    ensures Reordered(items, from, to)[to] == items[from]
  {
    var order := ArrayMove(Ids(items), from, to);
    forall t | t in items ensures t.id in order {
      MemberHasId(items, t);
      assert t.id in multiset(Ids(items));
    }
    SortFollowsOrder(items, order);
    var r := Reordered(items, from, to);
    assert r[to] in multiset(items);
    assert Ids(r)[to] == Ids(items)[from];
    SameIdSameTask(items, r[to], items[from]);
  }

  // ---------------------------------------------------------------- the store rewrites

  /**
   * The same-lane rewrite as written at line 210: each task with the lane's
   * status is replaced by the card of `reordered` carrying its id, when there
   * is one; every other task is kept.
   */
  function ReplaceFromLane(copy: seq<Tache>, col: Statut, reordered: seq<Tache>): (r: seq<Tache>)
    ensures |r| == |copy|
  {
    seq(|copy|, i requires 0 <= i < |copy| =>
      if copy[i].statut == col then FindById(reordered, copy[i].id).GetOr(copy[i]) else copy[i])
  }

  /**
   * When the store has unique ids and every card of `reordered` comes from it,
   * the rewrite of line 210 hands every card back unchanged: the store keeps
   * its contents and its order, and the computed lane order is lost.
   */
  lemma ReplaceFromLaneIsIdentity(copy: seq<Tache>, col: Statut, reordered: seq<Tache>)
    requires UniqueIds(copy)
    requires forall t :: t in reordered ==> t in copy
    ensures ReplaceFromLane(copy, col, reordered) == copy
  {
    var r := ReplaceFromLane(copy, col, reordered);
    forall i | 0 <= i < |copy| ensures r[i] == copy[i] {
      var found := FindById(reordered, copy[i].id);
      if copy[i].statut == col && found.Some? {
        SameIdSameTask(copy, found.value, copy[i]);
      }
    }
  }

  /** The cross-lane rewrite: every task carrying the id takes status `dest`; the others are kept. */
  function SetStatut(copy: seq<Tache>, id: string, dest: Statut): (r: seq<Tache>)
    ensures |r| == |copy|
  {
    seq(|copy|, i requires 0 <= i < |copy| => if copy[i].id == id then copy[i].(statut := dest) else copy[i])
  }

  /**
   * In a store with unique ids, a cross-lane drop changes one field of one
   * task: the dragged task's status becomes the destination; ids, order and
   * every other task stay as they were.
   */
  lemma SetStatutChangesOnlyMoved(copy: seq<Tache>, k: nat, dest: Statut)
    requires UniqueIds(copy) && k < |copy|
    ensures SetStatut(copy, copy[k].id, dest) == copy[k := copy[k].(statut := dest)]
    ensures Ids(SetStatut(copy, copy[k].id, dest)) == Ids(copy)
    ensures UniqueIds(SetStatut(copy, copy[k].id, dest))
  {
    var r := SetStatut(copy, copy[k].id, dest);
    var expected := copy[k := copy[k].(statut := dest)];
    forall i | 0 <= i < |copy| ensures r[i] == expected[i] {
      if i != k {
        assert Ids(copy)[i] != Ids(copy)[k] by {
          if i < k {
            assert Ids(copy)[i] != Ids(copy)[k];
          }
        }
      }
    }
    assert r == expected;
    forall i | 0 <= i < |copy| ensures Ids(r)[i] == Ids(copy)[i] {
    }
    assert Ids(r) == Ids(copy);
  }

  /**
   * After a cross-lane drop of a displayed card, the view shows the card with
   * its new status in the destination lane: the status plays no part in the
   * search or the segment filter.
   */
  lemma SetStatutMovesToDestLane(copy: seq<Tache>, k: nat, dest: Statut, filtre: FiltreSegment, recherche: string)
    requires UniqueIds(copy) && k < |copy|
    requires copy[k] in Affichage(copy, filtre, recherche)
    ensures copy[k].(statut := dest) in Lane(Affichage(SetStatut(copy, copy[k].id, dest), filtre, recherche), dest)
  {
    SetStatutChangesOnlyMoved(copy, k, dest);
    var r := SetStatut(copy, copy[k].id, dest);
    assert r[k] == copy[k].(statut := dest);
    assert r[k] in r;
  }

  /** The cards in a lane come from the store the lanes were built from. */
  lemma LaneCardsInStore(taches: seq<Tache>, filtre: FiltreSegment, recherche: string, s: Statut)
    ensures forall t :: t in ParStatutOf(Affichage(taches, filtre, recherche)).Get(s) ==> t in taches
  {
  }

  /**
   * A card that the lane lookup finds is in the store the lanes were built
   * from, so the `find(...)!` of line 205 always succeeds.
   */
  lemma DraggedCardInStore(taches: seq<Tache>, filtre: FiltreSegment, recherche: string, id: string)
    requires LaneOf(ParStatutOf(Affichage(taches, filtre, recherche)), id).Some?
    ensures HasId(taches, id)
  {
    var par := ParStatutOf(Affichage(taches, filtre, recherche));
    var t := HasIdMember(par.Get(LaneOf(par, id).value), id);
    LaneCardsInStore(taches, filtre, recherche, LaneOf(par, id).value);
    MemberHasId(taches, t);
  }

  // ---------------------------------------------------------------- the whole handler

  /**
   * The store after `onDragEnd`, with the lanes built from the store itself
   * (`prev` of the update is the store the view was computed from).
   */
  function DragEnd(prev: seq<Tache>, filtre: FiltreSegment, recherche: string, activeId: string, over: Option<string>): seq<Tache> {
    match PlanDrop(ParStatutOf(Affichage(prev, filtre, recherche)), activeId, over)
    case Ignore => prev
    case SameLane(col, items, from, to) => ReplaceFromLane(prev, col, Reordered(items, from, to))
    case CrossLane(dest) => SetStatut(prev, activeId, dest)
  }

  /**
   * A drop onto nothing or onto the dragged card itself changes nothing, and
   * neither does a drag of a card or onto a card that is not displayed (the
   * lookup misses).
   */
  lemma DragEndIgnores(prev: seq<Tache>, filtre: FiltreSegment, recherche: string, activeId: string, over: Option<string>)
    requires over.None? || activeId == over.value
             || !HasId(Affichage(prev, filtre, recherche), activeId)
             || !HasId(Affichage(prev, filtre, recherche), over.value)
    ensures DragEnd(prev, filtre, recherche, activeId, over) == prev
  {
    if over.Some? && activeId != over.value {
      LaneOfFindsDisplayed(Affichage(prev, filtre, recherche), activeId);
      LaneOfFindsDisplayed(Affichage(prev, filtre, recherche), over.value);
    }
  }

  /**
   * In a store with unique ids, a drop within one lane leaves the store as it
   * was: line 210 hands each lane card back unchanged and the new lane order
   * is not written anywhere.
   */
  lemma SameLaneDropKeepsStore(taches: seq<Tache>, filtre: FiltreSegment, recherche: string, activeId: string, over: Option<string>)
    requires UniqueIds(taches)
    requires PlanDrop(ParStatutOf(Affichage(taches, filtre, recherche)), activeId, over).SameLane?
    ensures DragEnd(taches, filtre, recherche, activeId, over) == taches
  {
    var d := PlanDrop(ParStatutOf(Affichage(taches, filtre, recherche)), activeId, over);
    var reordered := Reordered(d.items, d.from, d.to);
    LaneCardsInStore(taches, filtre, recherche, d.col);
    forall t | t in reordered ensures t in taches {
      assert t in multiset(d.items);
    }
    ReplaceFromLaneIsIdentity(taches, d.col, reordered);
  }

  /**
   * In a store with unique ids, a drop into another lane changes exactly the
   * status of the dragged task, to the status of the lane it was dropped in;
   * the store keeps its length, its ids and their order.
   */
  lemma CrossLaneDropSetsStatus(taches: seq<Tache>, filtre: FiltreSegment, recherche: string, activeId: string, over: Option<string>)
    requires UniqueIds(taches)
    requires PlanDrop(ParStatutOf(Affichage(taches, filtre, recherche)), activeId, over).CrossLane?
    ensures var d := PlanDrop(ParStatutOf(Affichage(taches, filtre, recherche)), activeId, over);
            var k := FindIndex(taches, activeId);
            0 <= k && DragEnd(taches, filtre, recherche, activeId, over) == taches[k := taches[k].(statut := d.dest)]
            && UniqueIds(DragEnd(taches, filtre, recherche, activeId, over))
  {
    var d := PlanDrop(ParStatutOf(Affichage(taches, filtre, recherche)), activeId, over);
    DraggedCardInStore(taches, filtre, recherche, activeId);
    SetStatutChangesOnlyMoved(taches, FindIndex(taches, activeId), d.dest);
  }

  /** Whatever the drop, a store with unique ids keeps its ids, in order, and so stays unique. */
  lemma DragEndKeepsIds(prev: seq<Tache>, filtre: FiltreSegment, recherche: string, activeId: string, over: Option<string>)
    requires UniqueIds(prev)
    ensures Ids(DragEnd(prev, filtre, recherche, activeId, over)) == Ids(prev)
    ensures UniqueIds(DragEnd(prev, filtre, recherche, activeId, over))
  {
    var d := PlanDrop(ParStatutOf(Affichage(prev, filtre, recherche)), activeId, over);
    var after := DragEnd(prev, filtre, recherche, activeId, over);
    if d.SameLane? {
      assert after == prev by {
        SameLaneDropKeepsStore(prev, filtre, recherche, activeId, over);
      }
    } else if d.CrossLane? {
      var k := FindIndex(prev, activeId);
      assert 0 <= k && after == SetStatut(prev, prev[k].id, d.dest) by {
        DraggedCardInStore(prev, filtre, recherche, activeId);
      }
      SetStatutChangesOnlyMoved(prev, k, d.dest);
    }
  }

  // ---------------------------------------------------------------- the intended reorder

  function IdIn(ids: seq<string>): Tache -> bool {
    (t: Tache) => t.id in ids
  }

  /**
   * The reorder the program evidently intends: walk the store and give each
   * slot held by a lane card the next card of `reordered`; every other task
   * keeps its slot.
   */
  function SpliceLane(copy: seq<Tache>, laneIds: seq<string>, reordered: seq<Tache>): (r: seq<Tache>)
    ensures |r| == |copy|
    ensures forall i :: 0 <= i < |copy| && copy[i].id !in laneIds ==> r[i] == copy[i]
  {
    if copy == [] then []
    else if copy[0].id in laneIds && reordered != [] then
      [reordered[0]] + SpliceLane(copy[1..], laneIds, reordered[1..])
    else
      [copy[0]] + SpliceLane(copy[1..], laneIds, reordered)
  }

  /** When every task of the store belongs to the lane, the splice is the reordered lane itself. */
  lemma {:induction false} SpliceWholeLane(copy: seq<Tache>, laneIds: seq<string>, reordered: seq<Tache>)
    requires forall t :: t in copy ==> t.id in laneIds
    requires |reordered| == |copy|
    ensures SpliceLane(copy, laneIds, reordered) == reordered
  {
    if copy != [] {
      assert forall t :: t in copy[1..] ==> t in copy;
      SpliceWholeLane(copy[1..], laneIds, reordered[1..]);
    }
  }

  /** Read back through the lane's ids, the spliced store lists exactly `reordered`. */
  lemma {:induction false} SpliceLaneFollowsReordered(copy: seq<Tache>, laneIds: seq<string>, reordered: seq<Tache>)
    requires |Filter(copy, IdIn(laneIds))| == |reordered|
    requires forall t :: t in reordered ==> t.id in laneIds
    ensures Filter(SpliceLane(copy, laneIds, reordered), IdIn(laneIds)) == reordered
  {
    if copy != [] {
      if copy[0].id in laneIds {
        assert reordered == [reordered[0]] + reordered[1..];
        assert forall t :: t in reordered[1..] ==> t in reordered;
        SpliceLaneFollowsReordered(copy[1..], laneIds, reordered[1..]);
        assert SpliceLane(copy, laneIds, reordered)[1..] == SpliceLane(copy[1..], laneIds, reordered[1..]);
      } else {
        SpliceLaneFollowsReordered(copy[1..], laneIds, reordered);
        assert SpliceLane(copy, laneIds, reordered)[1..] == SpliceLane(copy[1..], laneIds, reordered);
      }
    }
  }

  /** Copies of `x` in a non-empty sequence: those at its head plus those in its tail. */
  lemma CountHead(s: seq<Tache>, x: Tache)
    requires s != []
    ensures multiset(s)[x] == (if s[0] == x then 1 else 0) + multiset(s[1..])[x]
  {
    assert s == [s[0]] + s[1..];
  }

  /**
   * The splice swaps the lane's cards for those of `reordered` and keeps every
   * other task, counted copy by copy.
   */
  lemma {:induction false} SpliceCount(copy: seq<Tache>, laneIds: seq<string>, reordered: seq<Tache>, x: Tache)
    requires |Filter(copy, IdIn(laneIds))| == |reordered|
    ensures multiset(SpliceLane(copy, laneIds, reordered))[x] + multiset(Filter(copy, IdIn(laneIds)))[x]
              == multiset(copy)[x] + multiset(reordered)[x]
  {
    if copy != [] {
      var p := IdIn(laneIds);
      var spliced := SpliceLane(copy, laneIds, reordered);
      var kept := Filter(copy, p);
      CountHead(copy, x);
      if copy[0].id in laneIds {
        assert reordered != [];
        assert spliced[0] == reordered[0] && spliced[1..] == SpliceLane(copy[1..], laneIds, reordered[1..]);
        assert kept[0] == copy[0] && kept[1..] == Filter(copy[1..], p);
        CountHead(spliced, x);
        CountHead(kept, x);
        CountHead(reordered, x);
        SpliceCount(copy[1..], laneIds, reordered[1..], x);
      } else {
        assert spliced[0] == copy[0] && spliced[1..] == SpliceLane(copy[1..], laneIds, reordered);
        assert kept == Filter(copy[1..], p);
        CountHead(spliced, x);
        SpliceCount(copy[1..], laneIds, reordered, x);
      }
    }
  }

  lemma {:induction false} FilterByIdsOfSubsequence(a: seq<Tache>, b: seq<Tache>)
    requires IsSubsequence(a, b) && UniqueIds(b)
    ensures Filter(b, IdIn(Ids(a))) == a
    decreases |b|
  {
    if a == [] {
      FilterKeepsNone(b, IdIn(Ids(a)));
    } else {
      DistinctCons(b[0].id, Ids(b[1..]));
      if a[0] == b[0] && IsSubsequence(a[1..], b[1..]) {
        FilterByIdsOfSubsequence(a[1..], b[1..]);
        forall t | t in b[1..] ensures IdIn(Ids(a))(t) == IdIn(Ids(a[1..]))(t) {
          MemberHasId(b[1..], t);
        }
        FilterCongruent(b[1..], IdIn(Ids(a)), IdIn(Ids(a[1..])));
        assert Ids(a) == [a[0].id] + Ids(a[1..]);
      } else {
        FilterByIdsOfSubsequence(a, b[1..]);
        SubsequenceMembers(a, b[1..]);
        if b[0].id in Ids(a) {
          var t := HasIdMember(a, b[0].id);
          MemberHasId(b[1..], t);
        }
      }
    }
  }

  lemma {:induction false} SubsequenceTransitive(a: seq<Tache>, b: seq<Tache>, c: seq<Tache>)
    requires IsSubsequence(a, b) && IsSubsequence(b, c)
    ensures IsSubsequence(a, c)
    decreases |c|
  {
    if a != [] && b != [] {
      if b[0] == c[0] && IsSubsequence(b[1..], c[1..]) {
        if a[0] == b[0] && IsSubsequence(a[1..], b[1..]) {
          SubsequenceTransitive(a[1..], b[1..], c[1..]);
        } else {
          SubsequenceTransitive(a, b[1..], c[1..]);
        }
      } else {
        SubsequenceTransitive(a, b, c[1..]);
      }
    }
  }

  /**
   * Splicing the sorted lane back into a store with unique ids lists the lane
   * cards, read back through their ids, in `arrayMove` order.
   */
  lemma SpliceReorderedLane(taches: seq<Tache>, items: seq<Tache>, from: nat, to: nat)
    requires UniqueIds(taches) && IsSubsequence(items, taches)
    requires from < |items| && to < |items|
    ensures Ids(Filter(SpliceLane(taches, Ids(items), Reordered(items, from, to)), IdIn(Ids(items))))
              == ArrayMove(Ids(items), from, to)
  {
    SubsequenceUniqueIds(items, taches);
    FilterByIdsOfSubsequence(items, taches);
    var reordered := Reordered(items, from, to);
    ReorderedFollowsMove(items, from, to);
    forall t | t in reordered ensures t.id in Ids(items) {
      assert t in multiset(items);
      MemberHasId(items, t);
    }
    SpliceLaneFollowsReordered(taches, Ids(items), reordered);
  }

  /** Splicing the sorted lane back into a store with unique ids only permutes the store. */
  lemma SpliceReorderedLanePermutes(taches: seq<Tache>, items: seq<Tache>, from: nat, to: nat)
    requires UniqueIds(taches) && IsSubsequence(items, taches)
    requires from < |items| && to < |items|
    ensures multiset(SpliceLane(taches, Ids(items), Reordered(items, from, to))) == multiset(taches)
  {
    var reordered := Reordered(items, from, to);
    var spliced := SpliceLane(taches, Ids(items), reordered);
    assert Filter(taches, IdIn(Ids(items))) == items by {
      FilterByIdsOfSubsequence(items, taches);
    }
    assert multiset(reordered) == multiset(items) by {
      SubsequenceUniqueIds(items, taches);
      ReorderedFollowsMove(items, from, to);
    }
    assert |reordered| == |items| by {
      assert |multiset(reordered)| == |multiset(items)|;
    }
    forall t ensures multiset(spliced)[t] == multiset(taches)[t] {
      SpliceCount(taches, Ids(items), reordered, t);
    }
  }

  /**
   * The store after `onDragEnd` as the program evidently intends it: a drop
   * within one lane writes the reordered lane back into the slots its cards
   * hold in the store; the other cases are those of `DragEnd`.
   */
  function DragEndIntended(prev: seq<Tache>, filtre: FiltreSegment, recherche: string, activeId: string, over: Option<string>): seq<Tache> {
    match PlanDrop(ParStatutOf(Affichage(prev, filtre, recherche)), activeId, over)
    case Ignore => prev
    case SameLane(col, items, from, to) => SpliceLane(prev, Ids(items), Reordered(items, from, to))
    case CrossLane(dest) => SetStatut(prev, activeId, dest)
  }

  /** Away from a drop within one lane, the intended handler is the handler as written. */
  lemma DragEndIntendedAgrees(prev: seq<Tache>, filtre: FiltreSegment, recherche: string, activeId: string, over: Option<string>)
    requires !PlanDrop(ParStatutOf(Affichage(prev, filtre, recherche)), activeId, over).SameLane?
    ensures DragEndIntended(prev, filtre, recherche, activeId, over) == DragEnd(prev, filtre, recherche, activeId, over)
  {
  }

  /**
   * With the intended rewrite, a same-lane drop in a store with unique ids
   * puts the lane's cards in the order `arrayMove` gives their ids, leaves
   * every task outside the lane in its slot, and only permutes the store.
   */
  lemma IntendedSameLaneDrop(taches: seq<Tache>, filtre: FiltreSegment, recherche: string, activeId: string, overId: string)
    requires UniqueIds(taches)
    requires PlanDrop(ParStatutOf(Affichage(taches, filtre, recherche)), activeId, Some(overId)).SameLane?
    ensures var d := PlanDrop(ParStatutOf(Affichage(taches, filtre, recherche)), activeId, Some(overId));
            var r := DragEndIntended(taches, filtre, recherche, activeId, Some(overId));
            Ids(Filter(r, IdIn(Ids(d.items)))) == ArrayMove(Ids(d.items), d.from, d.to)
            && (forall i :: 0 <= i < |taches| && taches[i].id !in Ids(d.items) ==> r[i] == taches[i])
            && multiset(r) == multiset(taches)
  {
    var affichage := Affichage(taches, filtre, recherche);
    var d := PlanDrop(ParStatutOf(affichage), activeId, Some(overId));
    assert IsSubsequence(d.items, taches) by {
      ParStatutGet(affichage, d.col);
      assert IsSubsequence(d.items, affichage) by {
        LaneSpec(affichage, d.col);
      }
      assert IsSubsequence(affichage, taches) by {
        AffichageSpec(taches, filtre, recherche);
      }
      SubsequenceTransitive(d.items, affichage, taches);
    }
    SpliceReorderedLane(taches, d.items, d.from, d.to);
    SpliceReorderedLanePermutes(taches, d.items, d.from, d.to);
  }

  /**
   * In a store with unique ids, the intended handler keeps the ids unique and
   * the store's length, and holds a task with a given id exactly when the store
   * did: a drop only reorders or restatuses tasks.
   */
  lemma DragEndIntendedKeepsIds(prev: seq<Tache>, filtre: FiltreSegment, recherche: string, activeId: string, over: Option<string>)
    requires UniqueIds(prev)
    ensures UniqueIds(DragEndIntended(prev, filtre, recherche, activeId, over))
    ensures |DragEndIntended(prev, filtre, recherche, activeId, over)| == |prev|
    ensures forall id :: HasId(DragEndIntended(prev, filtre, recherche, activeId, over), id) <==> HasId(prev, id)
  {
    var d := PlanDrop(ParStatutOf(Affichage(prev, filtre, recherche)), activeId, over);
    var after := DragEndIntended(prev, filtre, recherche, activeId, over);
    if d.SameLane? {
      assert multiset(after) == multiset(prev) by {
        IntendedSameLaneDrop(prev, filtre, recherche, activeId, over.value);
      }
      PermutationUniqueIds(prev, after);
      PermutationMembers(after, prev);
      forall id ensures HasId(after, id) <==> HasId(prev, id) {
        if HasId(after, id) {
          var t := HasIdMember(after, id);
          MemberHasId(prev, t);
        }
        if HasId(prev, id) {
          var t := HasIdMember(prev, id);
          MemberHasId(after, t);
        }
      }
    } else {
      assert after == DragEnd(prev, filtre, recherche, activeId, over);
      DragEndKeepsIds(prev, filtre, recherche, activeId, over);
    }
  }
}
