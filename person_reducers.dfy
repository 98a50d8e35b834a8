/**
 * The list transformations the persons reducers apply
 * (com/randomco/app/PersonsStore.kt, com/randomco/app/PersonStore.kt):
 * append a loaded page and drop repeated ids, delete by equality, and flip
 * the favourite flag of the matching persons.
 */
module PersonLists {
  import opened Wrappers
  import opened Collections
  import opened Persons

  /** The key of `distinctBy { it.id }`. */
  function PersonId(p: Person): string {
    p.Id()
  }

  /** No two persons share an id, that is, an email. */
  predicate UniqueIds(persons: seq<Person>) {
    DistinctKeys(persons, PersonId)
  }

  /**
   * `((prev ?: emptyList()) + loaded).distinctBy { it.id }`: the result has
   * unique ids, and exactly the ids of the old and the loaded persons.
   */
  function MergeLoaded(prev: Option<seq<Person>>, loaded: seq<Person>): (r: seq<Person>)
    ensures UniqueIds(r)
    ensures forall i :: 0 <= i < |r| ==> r[i] in prev.GetOr([]) || r[i] in loaded
    ensures Keys(r, PersonId) == Keys(prev.GetOr([]), PersonId) + Keys(loaded, PersonId)
  {
    KeysAppend(prev.GetOr([]), loaded, PersonId);
    DistinctBy(prev.GetOr([]) + loaded, PersonId)
  }

  /**
   * When the old list has unique ids, it is kept whole and in place, and the
   * loaded persons whose ids are new follow it, each by its first
   * occurrence and in the order loaded.
   */
  lemma MergeKeepsPrevious(prev: seq<Person>, loaded: seq<Person>)
    requires UniqueIds(prev)
    ensures MergeLoaded(Some(prev), loaded) == prev + DistinctByFrom(loaded, PersonId, Keys(prev, PersonId))
  {
    DistinctByAppend(prev, loaded, PersonId, {});
    DistinctByFromKeepsDistinct(prev, PersonId, {});
    assert {} + Keys(prev, PersonId) == Keys(prev, PersonId);
  }

  /** The merge agrees with the reference "first occurrence of each id" on every input. */
  lemma MergeIsFirstOccurrences(prev: Option<seq<Person>>, loaded: seq<Person>)
    ensures MergeLoaded(prev, loaded) == FirstOccurrences(prev.GetOr([]) + loaded, PersonId)
  {
    DistinctByIsFirstOccurrences(prev.GetOr([]) + loaded, PersonId);
  }

  /** Loading the same person twice into an empty list keeps it once. */
  lemma LoadingTwiceKeepsOne(p: Person)
    ensures MergeLoaded(None, [p, p]) == [p]
  {
    var s := [p, p];
    assert [] + s == s;
    assert s[1..] == [p] && [p][1..] == [];
    var seen: set<string> := {};
    assert seen + {PersonId(p)} == {PersonId(p)};
    assert DistinctByFrom([p], PersonId, {PersonId(p)}) == [];
    assert DistinctByFrom(s, PersonId, seen) == [p] + DistinctByFrom(s[1..], PersonId, seen + {PersonId(p)});
  }

  /** Deleting the only person leaves an empty list, not a null one. */
  lemma DeletingTheOnlyPerson(p: Person)
    ensures DeletePerson(Some([p]), p) == Some([])
  {
    var r := DeletePerson(Some([p]), p).value;
    SubsequenceMembers(r, [p]);
  }

  /** `persons?.filter { it != toDelete }`: every element equal to the person goes, the rest stay in order. */
  function DeletePerson(persons: Option<seq<Person>>, toDelete: Person): (r: Option<seq<Person>>)
    ensures r.None? <==> persons.None?
    ensures r.Some? ==> IsSubsequence(r.value, persons.value)
    ensures r.Some? ==> toDelete !in r.value
    ensures r.Some? ==> forall q :: q in persons.value && q != toDelete ==> q in r.value
    ensures r.Some? ==> multiset(r.value) == multiset(persons.value)[toDelete := 0]
  {
    match persons
    case None => None
    case Some(ps) =>
      var kept := Filter(ps, (q: Person) => q != toDelete);
      FilterIsSubsequence(ps, (q: Person) => q != toDelete);
      FilterMultiset(ps, (q: Person) => q != toDelete);
      assert multiset(kept) == multiset(ps)[toDelete := 0] by {
        forall q ensures multiset(kept)[q] == multiset(ps)[toDelete := 0][q] { }
      }
      Some(kept)
  }

  /** A person with the favourite flag flipped: `copy(favorite = !favorite)`. */
  function Flipped(p: Person): (q: Person)
    ensures q.favorite == !p.favorite && q.Id() == p.Id()
    ensures q.(favorite := p.favorite) == p
  {
    p.(favorite := !p.favorite)
  }

  /**
   * `persons?.map { if (it == toUpdate) it.copy(favorite = !it.favorite) else it }`:
   * same length and ids; the elements equal to the person are flipped, the others untouched.
   */
  function ToggleFavorite(persons: Option<seq<Person>>, toUpdate: Person): (r: Option<seq<Person>>)
    ensures r.None? <==> persons.None?
    ensures r.Some? ==> |r.value| == |persons.value|
    ensures r.Some? ==> forall i :: 0 <= i < |r.value| ==> r.value[i].Id() == persons.value[i].Id()
    ensures r.Some? ==> forall i :: 0 <= i < |r.value| && persons.value[i] == toUpdate ==>
                          r.value[i] == Flipped(toUpdate)
    ensures r.Some? ==> forall i :: 0 <= i < |r.value| && persons.value[i] != toUpdate ==>
                          r.value[i] == persons.value[i]
  {
    match persons
    case None => None
    case Some(ps) =>
      Some(seq(|ps|, i requires 0 <= i < |ps| => if ps[i] == toUpdate then Flipped(ps[i]) else ps[i]))
  }

  /** Deleting and toggling never break unique ids. */
  lemma ReducersKeepIdsUnique(persons: seq<Person>, p: Person)
    requires UniqueIds(persons)
    ensures UniqueIds(DeletePerson(Some(persons), p).value)
    ensures UniqueIds(ToggleFavorite(Some(persons), p).value)
  {
    var kept := DeletePerson(Some(persons), p).value;
    forall i, j | 0 <= i < j < |kept| ensures PersonId(kept[i]) != PersonId(kept[j]) {
      SubsequenceIndices(kept, persons, i, j);
    }
  }

  /** Two positions of a subsequence come from two ordered positions of the original. */
  lemma {:induction false} SubsequenceIndices(a: seq<Person>, b: seq<Person>, i: nat, j: nat)
    requires IsSubsequence(a, b) && i < j < |a|
    ensures exists i', j' :: 0 <= i' < j' < |b| && b[i'] == a[i] && b[j'] == a[j]
    decreases |b|
  {
    if a[0] == b[0] && IsSubsequence(a[1..], b[1..]) {
      if i == 0 {
        assert a[1..][j - 1] == a[j];
        assert a[1..][j - 1] in b[1..] by {
          SubsequenceMembers(a[1..], b[1..]);
        }
        var k :| 0 <= k < |b[1..]| && b[1..][k] == a[j];
        assert b[0] == a[0] && b[k + 1] == a[j];
      } else {
        SubsequenceIndices(a[1..], b[1..], i - 1, j - 1);
        var i', j' :| 0 <= i' < j' < |b[1..]| && b[1..][i'] == a[1..][i - 1] && b[1..][j'] == a[1..][j - 1];
        assert b[i' + 1] == a[i] && b[j' + 1] == a[j];
      }
    } else {
      SubsequenceIndices(a, b[1..], i, j);
      var i', j' :| 0 <= i' < j' < |b[1..]| && b[1..][i'] == a[i] && b[1..][j'] == a[j];
      assert b[i' + 1] == a[i] && b[j' + 1] == a[j];
    }
  }

  /**
   * Toggling the person, then its flipped copy, restores the list, provided
   * the flipped copy was not already in it.
   */
  lemma ToggleTwiceRestores(persons: seq<Person>, p: Person)
    requires Flipped(p) !in persons
    ensures ToggleFavorite(ToggleFavorite(Some(persons), p), Flipped(p)) == Some(persons)
  {
    var once := ToggleFavorite(Some(persons), p).value;
    var twice := ToggleFavorite(Some(once), Flipped(p)).value;
    forall i | 0 <= i < |persons| ensures twice[i] == persons[i] {
      if persons[i] == p {
        assert once[i] == Flipped(p);
      } else {
        assert persons[i] != Flipped(p) && once[i] == persons[i];
      }
    }
    assert twice == persons;
  }
}
