/**
 * The board component's state and event handlers: the task store, the search
 * text and the segment filter, updated in place by delete, add, import and
 * drag-end; and the add form with its draft task.
 */
module Board {
  import opened Wrappers
  import opened Text
  import opened Seqs
  import opened Tasks
  import opened Drag

  class App {
    var taches: seq<Tache>
    var recherche: string
    var filtreSegment: FiltreSegment

    /** The starting state; the list read from local storage (or the examples) is a parameter. */
    constructor(initial: seq<Tache>)
      ensures taches == initial && recherche == "" && filtreSegment == Tous
    {
      taches := initial;
      recherche := "";
      filtreSegment := Tous;
    }

    function AffichageCourant(): seq<Tache>
      reads this
    {
      Affichage(taches, filtreSegment, recherche)
    }

    function ParStatutCourant(): ParStatut
      reads this
    {
      ParStatutOf(AffichageCourant())
    }

    function CompteursCourants(): (c: Compteurs)
      reads this
      ensures c.total == |AffichageCourant()|
      ensures c.termines == |Lane(AffichageCourant(), Termine)| && c.enCours == |Lane(AffichageCourant(), EnCours)|
              && c.aVenir == |Lane(AffichageCourant(), AVenir)|
      ensures c.termines + c.enCours + c.aVenir == c.total
    {
      CompteursOf(AffichageCourant())
    }

    /** The search box. */
    method SetRecherche(q: string)
      modifies this
      ensures recherche == q && taches == old(taches) && filtreSegment == old(filtreSegment)
    {
      recherche := q;
    }

    /** The segment selector. */
    method SetFiltreSegment(f: FiltreSegment)
      modifies this
      ensures filtreSegment == f && taches == old(taches) && recherche == old(recherche)
    {
      filtreSegment := f;
    }

    /** Deleting: drop every task with that id, keep the rest in order. */
    method OnDelete(id: string)
      modifies this
      ensures taches == Without(old(taches), id)
      ensures IsSubsequence(taches, old(taches))
      ensures forall t :: t in taches <==> t in old(taches) && t.id != id
      ensures !HasId(taches, id)
      ensures UniqueIds(old(taches)) ==> UniqueIds(taches)
      ensures UniqueIds(old(taches)) ==>
                |taches| == if HasId(old(taches), id) then |old(taches)| - 1 else |old(taches)|
      ensures recherche == old(recherche) && filtreSegment == old(filtreSegment)
    {
      WithoutSpec(taches, id);
      taches := Without(taches, id);
    }

    /** Adding: put the new task at the head of the store. */
    method OnAdd(n: Tache)
      modifies this
      ensures taches == [n] + old(taches)
      ensures UniqueIds(taches) <==> UniqueIds(old(taches)) && !HasId(old(taches), n.id)
      ensures recherche == old(recherche) && filtreSegment == old(filtreSegment)
    {
      AddSpec(n, taches, filtreSegment, recherche);
      taches := [n] + taches;
    }

    /** A successful JSON import replaces the whole store; its ids are not checked. */
    method OnImport(d: seq<Tache>)
      modifies this
      ensures taches == d && recherche == old(recherche) && filtreSegment == old(filtreSegment)
    {
      taches := d;
    }

    /**
     * `onDragEnd`: the lanes come from the current view and `prev` is the
     * current store. A drop onto nothing, onto the dragged card, or with either
     * id in no lane changes nothing. A drop into another lane sets the dragged
     * task's status to that lane. A drop within one lane sorts the lane into
     * the `arrayMove` order and writes it back into the slots the lane's cards
     * hold in the store, the rewrite line 210 evidently means.
     */
    method OnDragEnd(activeId: string, over: Option<string>)
      modifies this
      ensures taches == DragEndIntended(old(taches), filtreSegment, recherche, activeId, over)
      ensures UniqueIds(old(taches)) ==>
                UniqueIds(taches) && |taches| == |old(taches)|
                && forall id :: HasId(taches, id) <==> HasId(old(taches), id)
      ensures recherche == old(recherche) && filtreSegment == old(filtreSegment)
    {
      ghost var target := DragEndIntended(taches, filtreSegment, recherche, activeId, over);
      assert UniqueIds(taches) ==>
               UniqueIds(target) && |target| == |taches| && forall id :: HasId(target, id) <==> HasId(taches, id) by {
        if UniqueIds(taches) {
          DragEndIntendedKeepsIds(taches, filtreSegment, recherche, activeId, over);
        }
      }
      var d := PlanDrop(ParStatutCourant(), activeId, over);
      if d.Ignore? {
        return;
      }
      var copy := taches;
      // the lanes were built from this store, so the dragged card is in it
      DraggedCardInStore(taches, filtreSegment, recherche, activeId);
      var moving := FindById(copy, activeId);
      if d.SameLane? {
        var ids := Ids(d.items);
        var newOrder := ArrayMove(ids, d.from, d.to);
        var reordered := SortByRank(d.items, newOrder);
        copy := SpliceLane(copy, ids, reordered);
      } else {
        copy := SetStatut(copy, moving.value.id, d.dest);
      }
      taches := copy;
    }
  }

  /** The form's empty draft: default segment "Builder", default status "En cours". */
  function NouveauBrouillon(id: string): (t: Tache)
    ensures t.id == id && t.titre == "" && t.segment == Builder && t.statut == EnCours
    ensures t.date.None? && t.notes.None? && t.ordre.None?
  {
    Tache(id, "", Builder, EnCours, None, None, None)
  }

  /** The add form and the task it is filling in. */
  class FormAjout {
    var draft: Tache

    constructor(freshId: string)
      ensures draft == NouveauBrouillon(freshId)
    {
      draft := NouveauBrouillon(freshId);
    }

    method EditTitre(titre: string)
      modifies this
      ensures draft == old(draft).(titre := titre)
    {
      draft := draft.(titre := titre);
    }

    method EditSegment(segment: Segment)
      modifies this
      ensures draft == old(draft).(segment := segment)
    {
      draft := draft.(segment := segment);
    }

    method EditStatut(statut: Statut)
      modifies this
      ensures draft == old(draft).(statut := statut)
    {
      draft := draft.(statut := statut);
    }

    method EditDate(date: string)
      modifies this
      ensures draft == old(draft).(date := Some(date))
    {
      draft := draft.(date := Some(date));
    }

    method EditNotes(notes: string)
      modifies this
      ensures draft == old(draft).(notes := Some(notes))
    {
      draft := draft.(notes := Some(notes));
    }

    /**
     * `submit`: a title that is blank after trimming adds nothing and keeps
     * the draft; otherwise the draft is added at the head of the store and the
     * form starts a new draft under the id `freshId`, which stands for
     * `crypto.randomUUID()`.
     */
    method Submit(app: App, freshId: string)
      modifies this, app
      ensures AllSpace(old(draft.titre)) ==> draft == old(draft) && app.taches == old(app.taches)
      ensures !AllSpace(old(draft.titre)) ==>
                app.taches == [old(draft)] + old(app.taches) && draft == NouveauBrouillon(freshId)
      ensures UniqueIds(old(app.taches)) && !HasId(old(app.taches), old(draft.id)) ==> UniqueIds(app.taches)
      ensures (!HasId(old(app.taches), old(draft.id)) && !HasId(old(app.taches), freshId) && freshId != old(draft.id))
                ==> !HasId(app.taches, draft.id)
      ensures app.recherche == old(app.recherche) && app.filtreSegment == old(app.filtreSegment)
    {
      TrimEmptyIffBlank(draft.titre);
      if Trim(draft.titre) == [] {
        return;
      }
      app.OnAdd(draft);
      draft := NouveauBrouillon(freshId);
      assert Ids(app.taches) == [old(draft).id] + Ids(old(app.taches));
    }
  }
}
