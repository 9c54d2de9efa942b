/**
 * The board's records and the view derived from them: the task type, the
 * filtered display list (`affichage`), its split into status lanes
 * (`parStatut`), the counters, and the pure parts of delete and add.
 */
module Tasks {
  import opened Wrappers
  import opened Text
  import opened Seqs

  /** The three lifecycle stages, in the order the board lists them. */
  datatype Statut = Termine | EnCours | AVenir

  /** The four business segments. */
  datatype Segment = Builder | Commercial | GestionImmobiliere | Dealer

  /** A task card. `ordre` is declared by the program but never read or written by it. */
  datatype Tache = Tache(
    id: string,
    titre: string,
    segment: Segment,
    statut: Statut,
    date: Option<string>,
    notes: Option<string>,
    ordre: Option<int>)

  /** The segment selector: "Tous" or one segment. */
  datatype FiltreSegment = Tous | Seul(segment: Segment)

  /** The statuses in the order the board lists its lanes. */
  const STATUTS: seq<Statut> := [Termine, EnCours, AVenir]

  // ---------------------------------------------------------------- ids

  /** The ids of the tasks, position by position. */
  function Ids(s: seq<Tache>): (r: seq<string>)
    ensures |r| == |s|
    ensures forall i :: 0 <= i < |s| ==> r[i] == s[i].id
  {
    if s == [] then [] else [s[0].id] + Ids(s[1..])
  }

  /** The store invariant: no two tasks share an id. */
  predicate UniqueIds(s: seq<Tache>) {
    Distinct(Ids(s))
  }

  /** Some task of `s` carries the id. */
  predicate HasId(s: seq<Tache>, id: string) {
    id in Ids(s)
  }

  lemma MemberHasId(s: seq<Tache>, t: Tache)
    requires t in s
    ensures HasId(s, t.id)
  {
    var i :| 0 <= i < |s| && s[i] == t;
    assert Ids(s)[i] == t.id;
  }

  lemma HasIdMember(s: seq<Tache>, id: string) returns (t: Tache)
    requires HasId(s, id)
    ensures t in s && t.id == id
  {
    var i :| 0 <= i < |s| && Ids(s)[i] == id;
    t := s[i];
  }

  /** In a store with unique ids, a task is determined by its id. */
  lemma SameIdSameTask(s: seq<Tache>, t1: Tache, t2: Tache)
    requires UniqueIds(s) && t1 in s && t2 in s && t1.id == t2.id
    ensures t1 == t2
  {
    var i :| 0 <= i < |s| && s[i] == t1;
    var j :| 0 <= j < |s| && s[j] == t2;
    assert Ids(s)[i] == Ids(s)[j];
  }

  /** The position of the first task carrying the id, or -1 when none does. */
  function FindIndex(s: seq<Tache>, id: string): (r: int)
    ensures -1 <= r < |s|
    ensures r == -1 <==> !HasId(s, id)
    ensures r >= 0 ==> s[r].id == id && forall j :: 0 <= j < r ==> s[j].id != id
  {
    IndexOf(Ids(s), id)
  }

  /** The first task carrying the id, if any. */
  function FindById(s: seq<Tache>, id: string): (r: Option<Tache>)
    ensures r.None? <==> !HasId(s, id)
    ensures r.Some? ==> r.value in s && r.value.id == id
    ensures r.Some? ==> exists k :: 0 <= k < |s| && s[k] == r.value && forall j :: 0 <= j < k ==> s[j].id != id
  {
    var k := FindIndex(s, id);
    if k < 0 then None else Some(s[k])
  }

  /** A subsequence of a store with unique ids has unique ids. */
  lemma {:induction false} SubsequenceUniqueIds(a: seq<Tache>, b: seq<Tache>)
    requires IsSubsequence(a, b) && UniqueIds(b)
    ensures UniqueIds(a)
    decreases |b|
  {
    if a != [] {
      DistinctCons(b[0].id, Ids(b[1..]));
      if a[0] == b[0] && IsSubsequence(a[1..], b[1..]) {
        SubsequenceUniqueIds(a[1..], b[1..]);
        SubsequenceMembers(a[1..], b[1..]);
        forall k | 0 <= k < |a[1..]| ensures Ids(a[1..])[k] != a[0].id {
          MemberHasId(b[1..], a[1..][k]);
        }
        DistinctCons(a[0].id, Ids(a[1..]));
      } else {
        SubsequenceUniqueIds(a, b[1..]);
      }
    }
  }

  /** Two copies of one value in a sequence count twice in its multiset. */
  lemma RepeatCountsTwice<T>(s: seq<T>, i: nat, j: nat)
    requires i < j < |s| && s[i] == s[j]
    ensures multiset(s)[s[i]] >= 2
  {
    assert s == s[..j] + [s[j]] + s[j + 1..];
    assert s[i] in s[..j];
  }

  lemma {:induction false} UniqueIdsCountOnce(s: seq<Tache>, t: Tache)
    requires UniqueIds(s)
    ensures multiset(s)[t] <= 1
  {
    if s != [] {
      DistinctCons(s[0].id, Ids(s[1..]));
      UniqueIdsCountOnce(s[1..], t);
      assert s == [s[0]] + s[1..];
      if s[0] == t && t in s[1..] {
        MemberHasId(s[1..], t);
      }
    }
  }

  /** Reordering a store keeps its ids unique. */
  lemma PermutationUniqueIds(a: seq<Tache>, b: seq<Tache>)
    requires multiset(a) == multiset(b) && UniqueIds(a)
    ensures UniqueIds(b)
  {
    forall i, j | 0 <= i < j < |b| ensures Ids(b)[i] != Ids(b)[j] {
      if b[i].id == b[j].id {
        assert b[i] in multiset(a) && b[j] in multiset(a);
        SameIdSameTask(a, b[i], b[j]);
        RepeatCountsTwice(b, i, j);
        UniqueIdsCountOnce(a, b[i]);
      }
    }
  }

  // ---------------------------------------------------------------- view projection

  /** The segment selector lets the task through: it is "Tous" or names the task's segment. */
  predicate SegmentMatches(t: Tache, filtre: FiltreSegment) {
    filtre.Tous? || t.segment == filtre.segment
  }

  /**
   * The lower-cased query `q` occurs in the lower-cased title or in the
   * lower-cased notes, missing notes counting as the empty string.
   */
  predicate SearchMatches(t: Tache, q: string) {
    Contains(Lower(t.titre), q) || Contains(Lower(t.notes.GetOr("")), q)
  }

  function Shown(filtre: FiltreSegment, q: string): Tache -> bool {
    (t: Tache) => SegmentMatches(t, filtre) && SearchMatches(t, q)
  }

  /** The displayed list: the store filtered by segment and by search text. */
  function Affichage(taches: seq<Tache>, filtre: FiltreSegment, recherche: string): seq<Tache> {
    Filter(taches, Shown(filtre, Lower(recherche)))
  }

  /**
   * The displayed list is an order-preserving subsequence of the store that
   * holds every copy of each task passing both the segment filter and the
   * case-insensitive search on title or notes, and nothing else.
   */
  lemma AffichageSpec(taches: seq<Tache>, filtre: FiltreSegment, recherche: string)
    ensures IsSubsequence(Affichage(taches, filtre, recherche), taches)
    ensures forall t :: t in Affichage(taches, filtre, recherche) <==>
              t in taches && SegmentMatches(t, filtre) && SearchMatches(t, Lower(recherche))
    ensures UniqueIds(taches) ==> UniqueIds(Affichage(taches, filtre, recherche))
  {
    FilterIsSubsequence(taches, Shown(filtre, Lower(recherche)));
    if UniqueIds(taches) {
      SubsequenceUniqueIds(Affichage(taches, filtre, recherche), taches);
    }
  }

  /** An empty search matches every task, whatever its title and notes. */
  lemma EmptySearchMatchesAll(t: Tache)
    ensures SearchMatches(t, Lower(""))
  {
    assert StartsWith(Lower(t.titre), []);
  }

  /** With "Tous" and an empty search the display shows the whole store, in order. */
  lemma {:induction false} UnfilteredShowsAll(taches: seq<Tache>)
    ensures Affichage(taches, Tous, "") == taches
  {
    forall t | t in taches ensures Shown(Tous, Lower(""))(t) {
      EmptySearchMatchesAll(t);
    }
    FilterKeepsAll(taches, Shown(Tous, Lower("")));
  }

  function HasStatut(s: Statut): Tache -> bool {
    (t: Tache) => t.statut == s
  }

  /** The displayed tasks with status `s`, in display order. */
  function Lane(affichage: seq<Tache>, s: Statut): seq<Tache> {
    Filter(affichage, HasStatut(s))
  }

  /** `parStatut`: one lane per status. */
  datatype ParStatut = ParStatut(termines: seq<Tache>, enCours: seq<Tache>, aVenir: seq<Tache>) {
    function Get(s: Statut): seq<Tache> {
      match s
      case Termine => termines
      case EnCours => enCours
      case AVenir => aVenir
    }
  }

  function ParStatutOf(affichage: seq<Tache>): ParStatut {
    ParStatut(Lane(affichage, Termine), Lane(affichage, EnCours), Lane(affichage, AVenir))
  }

  lemma ParStatutGet(affichage: seq<Tache>, s: Statut)
    ensures ParStatutOf(affichage).Get(s) == Lane(affichage, s)
  {
  }

  /** Each lane holds, in display order, every displayed task with its status. */
  lemma LaneSpec(affichage: seq<Tache>, s: Statut)
    ensures IsSubsequence(Lane(affichage, s), affichage)
    ensures forall t :: t in Lane(affichage, s) <==> t in affichage && t.statut == s
  {
    FilterIsSubsequence(affichage, HasStatut(s));
  }

  lemma LanesMultiset(affichage: seq<Tache>)
    ensures multiset(affichage) ==
              multiset(Lane(affichage, Termine)) + multiset(Lane(affichage, EnCours)) + multiset(Lane(affichage, AVenir))
  {
    forall t
      ensures multiset(affichage)[t] ==
                multiset(Lane(affichage, Termine))[t] + multiset(Lane(affichage, EnCours))[t]
                + multiset(Lane(affichage, AVenir))[t]
    {
      FilterCount(affichage, HasStatut(Termine), t);
      FilterCount(affichage, HasStatut(EnCours), t);
      FilterCount(affichage, HasStatut(AVenir), t);
    }
  }

  /** No card sits in two lanes. */
  lemma LanesDisjoint(affichage: seq<Tache>)
    ensures forall s1, s2, t :: s1 != s2 && t in ParStatutOf(affichage).Get(s1) ==> t !in ParStatutOf(affichage).Get(s2)
  {
  }

  /**
   * The lanes partition the displayed list: no task is in two lanes, and
   * together the lanes hold each displayed task exactly as often as the
   * displayed list does, so their lengths add up to its length.
   */
  lemma LanesPartition(affichage: seq<Tache>)
    ensures forall s1, s2, t :: s1 != s2 && t in ParStatutOf(affichage).Get(s1) ==> t !in ParStatutOf(affichage).Get(s2)
    ensures multiset(affichage) ==
              multiset(ParStatutOf(affichage).termines) + multiset(ParStatutOf(affichage).enCours)
              + multiset(ParStatutOf(affichage).aVenir)
    ensures |ParStatutOf(affichage).termines| + |ParStatutOf(affichage).enCours| + |ParStatutOf(affichage).aVenir|
              == |affichage|
  {
    LanesDisjoint(affichage);
    LanesMultiset(affichage);
    assert |multiset(affichage)| == |affichage|;
  }

  /** The four counters shown above the board. */
  datatype Compteurs = Compteurs(total: nat, termines: nat, enCours: nat, aVenir: nat)

  /** The counters: the length of the display and of each lane. */
  function CompteursOf(affichage: seq<Tache>): (c: Compteurs)
    ensures c.total == |affichage|
    ensures c.termines == |Lane(affichage, Termine)| && c.enCours == |Lane(affichage, EnCours)|
            && c.aVenir == |Lane(affichage, AVenir)|
    ensures c.termines + c.enCours + c.aVenir == c.total
  {
    LanesPartition(affichage);
    var par := ParStatutOf(affichage);
    Compteurs(|affichage|, |par.termines|, |par.enCours|, |par.aVenir|)
  }

  // ---------------------------------------------------------------- store edits

  function IdIsNot(id: string): Tache -> bool {
    (t: Tache) => t.id != id
  }

  /** The store without the tasks carrying the id, the others in their order. */
  function Without(taches: seq<Tache>, id: string): seq<Tache> {
    Filter(taches, IdIsNot(id))
  }

  /**
   * Deleting removes every task with the id and keeps the others in their
   * order; in a store with unique ids it removes exactly one task when the id
   * is present and nothing otherwise.
   */
  lemma {:induction false} WithoutSpec(taches: seq<Tache>, id: string)
    ensures IsSubsequence(Without(taches, id), taches)
    ensures forall t :: t in Without(taches, id) <==> t in taches && t.id != id
    ensures !HasId(Without(taches, id), id)
    ensures !HasId(taches, id) ==> Without(taches, id) == taches
    ensures UniqueIds(taches) ==> UniqueIds(Without(taches, id))
    ensures UniqueIds(taches) ==> |Without(taches, id)| == if HasId(taches, id) then |taches| - 1 else |taches|
  {
    var r := Without(taches, id);
    FilterIsSubsequence(taches, IdIsNot(id));
    if HasId(r, id) {
      var t := HasIdMember(r, id);
    }
    if !HasId(taches, id) {
      forall t | t in taches ensures IdIsNot(id)(t) {
        if t.id == id {
          MemberHasId(taches, t);
        }
      }
      FilterKeepsAll(taches, IdIsNot(id));
    }
    if UniqueIds(taches) {
      SubsequenceUniqueIds(r, taches);
      if taches != [] {
        DistinctCons(taches[0].id, Ids(taches[1..]));
        WithoutSpec(taches[1..], id);
        if taches[0].id == id {
          assert r == Without(taches[1..], id);
        } else {
          assert r == [taches[0]] + Without(taches[1..], id);
        }
      }
    }
  }

  /**
   * Adding puts the new task at the head of the store; ids stay unique exactly
   * when the new id is fresh, and a displayed new task heads the display.
   */
  lemma AddSpec(n: Tache, taches: seq<Tache>, filtre: FiltreSegment, recherche: string)
    ensures UniqueIds([n] + taches) <==> UniqueIds(taches) && !HasId(taches, n.id)
    ensures Affichage([n] + taches, filtre, recherche) ==
              (if Shown(filtre, Lower(recherche))(n) then [n] else []) + Affichage(taches, filtre, recherche)
  {
    assert Ids([n] + taches) == [n.id] + Ids(taches);
    DistinctCons(n.id, Ids(taches));
    assert ([n] + taches)[1..] == taches;
  }
}
