/**
 * Worked drops and searches on small boards, as a user would perform them.
 * The drops are stated for any three cards with distinct ids.
 */
module Scenarios {
  import opened Wrappers
  import opened Text
  import opened Seqs
  import opened Tasks
  import opened Drag

  predicate DistinctIds(a: Tache, b: Tache, c: Tache) {
    a.id != b.id && a.id != c.id && b.id != c.id
  }

  lemma ThreeCardIds(a: Tache, b: Tache, c: Tache)
    requires DistinctIds(a, b, c)
    ensures Ids([a, b, c]) == [a.id, b.id, c.id]
    ensures UniqueIds([a, b, c])
    ensures FindIndex([a, b, c], a.id) == 0 && FindIndex([a, b, c], c.id) == 2
  {
    var ids := Ids([a, b, c]);
    assert ids == [a.id, b.id, c.id];
    assert IndexOf(ids, c.id) == 2 by {
      assert ids[1..] == [b.id, c.id];
      assert ids[1..][1..] == [c.id];
    }
  }

  /** Filtering three cards, one at a time. */
  lemma FilterThree(a: Tache, b: Tache, c: Tache, p: Tache -> bool)
    ensures Filter([a, b, c], p) == (if p(a) then [a] else []) + (if p(b) then [b] else []) + (if p(c) then [c] else [])
  {
    assert [a, b, c][1..] == [b, c];
    assert [b, c][1..] == [c];
    assert Filter([c], p) == (if p(c) then [c] else []) by {
      assert [c][1..] == [];
    }
    assert Filter([b, c], p) == (if p(b) then [b] else []) + Filter([c], p);
  }

  // ---------------------------------------------------------------- a move within one lane

  /** With a, b, c all "En cours", the lanes are empty but for "En cours". */
  lemma OneLaneBoard(a: Tache, b: Tache, c: Tache)
    requires a.statut == EnCours && b.statut == EnCours && c.statut == EnCours
    ensures ParStatutOf(Affichage([a, b, c], Tous, "")) == ParStatut([], [a, b, c], [])
  {
    assert Affichage([a, b, c], Tous, "") == [a, b, c] by {
      UnfilteredShowsAll([a, b, c]);
    }
    assert ParStatutOf([a, b, c]) == ParStatut([], [a, b, c], []) by {
      FilterThree(a, b, c, HasStatut(Termine));
      FilterThree(a, b, c, HasStatut(EnCours));
      FilterThree(a, b, c, HasStatut(AVenir));
    }
  }

  /** c and a are both found in the "En cours" lane, at positions 2 and 0. */
  lemma OneLanePlan(a: Tache, b: Tache, c: Tache)
    requires DistinctIds(a, b, c)
    ensures PlanDrop(ParStatut([], [a, b, c], []), c.id, Some(a.id)) == SameLane(EnCours, [a, b, c], 2, 0)
  {
    ThreeCardIds(a, b, c);
  }

  /** `arrayMove([x, y, z], 2, 0)` */
  lemma MoveLastToFront(x: string, y: string, z: string)
    ensures ArrayMove([x, y, z], 2, 0) == [z, x, y]
  {
    assert RemoveAt([x, y, z], 2) == [x, y];
    assert InsertAt([x, y], 0, z) == [z, x, y];
  }

  /**
   * Dragging c onto a in one lane: the new order is c, a, b, yet the store
   * comes out as a, b, c, because line 210 writes back each card as it was.
   */
  lemma SameLaneDropAsWritten(a: Tache, b: Tache, c: Tache)
    requires a.statut == EnCours && b.statut == EnCours && c.statut == EnCours
    requires DistinctIds(a, b, c)
    ensures PlanDrop(ParStatutOf(Affichage([a, b, c], Tous, "")), c.id, Some(a.id)) == SameLane(EnCours, [a, b, c], 2, 0)
    ensures ArrayMove(Ids([a, b, c]), 2, 0) == [c.id, a.id, b.id]
    ensures DragEnd([a, b, c], Tous, "", c.id, Some(a.id)) == [a, b, c]
    ensures DragEnd([a, b, c], Tous, "", c.id, Some(a.id)) != [c, a, b]
  {
    ThreeCardIds(a, b, c);
    OneLaneBoard(a, b, c);
    OneLanePlan(a, b, c);
    MoveLastToFront(a.id, b.id, c.id);
    SameLaneDropKeepsStore([a, b, c], Tous, "", c.id, Some(a.id));
  }

  /** A permutation of a, b, c is fixed by its ids. */
  lemma PermutationByIds(r: seq<Tache>, a: Tache, b: Tache, c: Tache)
    requires DistinctIds(a, b, c)
    requires multiset(r) == multiset([a, b, c]) && Ids(r) == [c.id, a.id, b.id]
    ensures r == [c, a, b]
  {
    PermutationMembers(r, [a, b, c]);
    assert r[0] in [a, b, c] && r[1] in [a, b, c] && r[2] in [a, b, c];
  }

  /** Sorting the lane by the moved ids puts c first. */
  lemma ReorderedLastToFront(a: Tache, b: Tache, c: Tache)
    requires DistinctIds(a, b, c)
    ensures Reordered([a, b, c], 2, 0) == [c, a, b]
  {
    var r := Reordered([a, b, c], 2, 0);
    assert multiset(r) == multiset([a, b, c]) && Ids(r) == [c.id, a.id, b.id] by {
      ThreeCardIds(a, b, c);
      ReorderedFollowsMove([a, b, c], 2, 0);
      MoveLastToFront(a.id, b.id, c.id);
    }
    PermutationByIds(r, a, b, c);
  }

  /** Splicing c, a, b back over a lane that fills the whole store. */
  lemma SpliceLastToFront(a: Tache, b: Tache, c: Tache)
    requires DistinctIds(a, b, c)
    ensures SpliceLane([a, b, c], Ids([a, b, c]), Reordered([a, b, c], 2, 0)) == [c, a, b]
  {
    ThreeCardIds(a, b, c);
    ReorderedLastToFront(a, b, c);
    SpliceWholeLane([a, b, c], Ids([a, b, c]), [c, a, b]);
  }

  /** The same drop through the intended handler leaves the store as c, a, b. */
  lemma SameLaneDropIntended(a: Tache, b: Tache, c: Tache)
    requires a.statut == EnCours && b.statut == EnCours && c.statut == EnCours
    requires DistinctIds(a, b, c)
    ensures DragEndIntended([a, b, c], Tous, "", c.id, Some(a.id)) == [c, a, b]
  {
    OneLaneBoard(a, b, c);
    OneLanePlan(a, b, c);
    SpliceLastToFront(a, b, c);
  }

  // ---------------------------------------------------------------- a move across lanes

  /** a and b "À venir", c "Terminé". */
  lemma TwoLaneBoard(a: Tache, b: Tache, c: Tache)
    requires a.statut == AVenir && b.statut == AVenir && c.statut == Termine
    ensures ParStatutOf(Affichage([a, b, c], Tous, "")) == ParStatut([c], [], [a, b])
  {
    assert Affichage([a, b, c], Tous, "") == [a, b, c] by {
      UnfilteredShowsAll([a, b, c]);
    }
    assert Lane([a, b, c], Termine) == [c] by {
      FilterThree(a, b, c, HasStatut(Termine));
    }
    assert Lane([a, b, c], EnCours) == [] by {
      FilterThree(a, b, c, HasStatut(EnCours));
    }
    assert Lane([a, b, c], AVenir) == [a, b] by {
      FilterThree(a, b, c, HasStatut(AVenir));
    }
  }

  /** a sits in "À venir" and c in "Terminé": a cross-lane drop onto "Terminé". */
  lemma TwoLanePlan(a: Tache, b: Tache, c: Tache)
    requires DistinctIds(a, b, c)
    ensures PlanDrop(ParStatut([c], [], [a, b]), a.id, Some(c.id)) == CrossLane(Termine)
  {
    assert Ids([c]) == [c.id];
    assert Ids([a, b]) == [a.id, b.id];
  }

  /** Dragging a onto c marks a "Terminé" and leaves it in its place in the store. */
  lemma CrossLaneDropScenario(a: Tache, b: Tache, c: Tache)
    requires a.statut == AVenir && b.statut == AVenir && c.statut == Termine
    requires DistinctIds(a, b, c)
    ensures DragEnd([a, b, c], Tous, "", a.id, Some(c.id)) == [a.(statut := Termine), b, c]
  {
    ThreeCardIds(a, b, c);
    TwoLaneBoard(a, b, c);
    TwoLanePlan(a, b, c);
    CrossLaneDropSetsStatus([a, b, c], Tous, "", a.id, Some(c.id));
  }

  /**
   * After that drop the "Terminé" lane reads a then c (store order, not drop
   * order) and "À venir" holds only b.
   */
  lemma CrossLaneDropLanes(a: Tache, b: Tache, c: Tache)
    requires a.statut == AVenir && b.statut == AVenir && c.statut == Termine
    requires DistinctIds(a, b, c)
    ensures Lane(DragEnd([a, b, c], Tous, "", a.id, Some(c.id)), Termine) == [a.(statut := Termine), c]
    ensures Lane(DragEnd([a, b, c], Tous, "", a.id, Some(c.id)), AVenir) == [b]
  {
    CrossLaneDropScenario(a, b, c);
    LanesAfterCrossLaneDrop(a.(statut := Termine), b, c);
  }

  /** A board holding a "Terminé", an "À venir" and a "Terminé" card, lane by lane. */
  lemma LanesAfterCrossLaneDrop(moved: Tache, b: Tache, c: Tache)
    requires moved.statut == Termine && b.statut == AVenir && c.statut == Termine
    ensures Lane([moved, b, c], Termine) == [moved, c]
    ensures Lane([moved, b, c], AVenir) == [b]
  {
    FilterThree(moved, b, c, HasStatut(Termine));
    FilterThree(moved, b, c, HasStatut(AVenir));
  }

  // ---------------------------------------------------------------- search

  function Card(id: string, titre: string, statut: Statut): Tache {
    Tache(id, titre, Builder, statut, None, None, None)
  }

  /**
   * Searching "GA" with every segment shown keeps the card titled "Gala" and
   * drops the one titled "Golf": the search ignores case.
   */
  lemma SearchIgnoresCase()
    ensures Affichage([Card("g", "Gala", AVenir), Card("o", "Golf", EnCours)], Tous, "GA")
              == [Card("g", "Gala", AVenir)]
  {
    LowerIs("GA", "ga");
    var gala, golf := Card("g", "Gala", AVenir), Card("o", "Golf", EnCours);
    assert Shown(Tous, "ga")(gala) by {
      GalaMatches();
    }
    assert !Shown(Tous, "ga")(golf) by {
      GolfMisses();
    }
    assert [gala, golf][1..] == [golf];
    assert Filter([golf], Shown(Tous, "ga")) == [] by {
      assert [golf][1..] == [];
    }
  }

  lemma GalaMatches()
    ensures SearchMatches(Card("g", "Gala", AVenir), "ga")
  {
    LowerIs("Gala", "gala");
    assert StartsWith("gala", "ga");
  }

  lemma GolfMisses()
    ensures !SearchMatches(Card("o", "Golf", EnCours), "ga")
  {
    LowerIs("Golf", "golf");
    assert "ga"[1] == 'a';
    MissingCharacterNotContained("golf", "ga", 'a');
    assert Lower("") == "";
    assert !Contains("", "ga");
  }
}
