/**
 * The list filter and sort of the persons screen
 * (com/randomco/models/PersonsFilter.kt): a text filter ignoring case, a
 * distance filter, and a stable sort by name or by gender.
 */
module PersonsFilters {
  import opened Wrappers
  import opened Persons
  import opened Collections

  // ---------------------------------------------------------------------------
  // String.contains(other, ignoreCase = true)
  // ---------------------------------------------------------------------------

  /** Upper-casing of a char; only the ASCII letters are mapped. */
  function ToUpper(c: char): char {
    if 'a' <= c <= 'z' then (c as int - 32) as char else c
  }

  /** Lower-casing of a char; only the ASCII letters are mapped. */
  function ToLower(c: char): char {
    if 'A' <= c <= 'Z' then (c as int + 32) as char else c
  }

  /** Char comparison ignoring case, as `regionMatches` with `ignoreCase` does it. */
  predicate CharEqualsIgnoreCase(a: char, b: char) {
    a == b || ToUpper(a) == ToUpper(b) || ToLower(ToUpper(a)) == ToLower(ToUpper(b))
  }

  /** `t` occurs in `s` at `offset`, ignoring case. */
  predicate RegionMatchesIgnoreCase(s: string, offset: nat, t: string)
    requires offset + |t| <= |s|
  {
    forall k :: 0 <= k < |t| ==> CharEqualsIgnoreCase(s[offset + k], t[k])
  }

  /**
   * The scan of `indexOf(other, startIndex, ignoreCase = true)`: the first
   * offset at or after `from` where `t` occurs ignoring case, or -1.
   */
  function IndexOfIgnoreCase(s: string, t: string, from: nat): (r: int)
    ensures r == -1 || (from <= r && r + |t| <= |s| && RegionMatchesIgnoreCase(s, r, t))
    ensures r == -1 ==> forall i :: from <= i && i + |t| <= |s| ==> !RegionMatchesIgnoreCase(s, i, t)
    ensures r != -1 ==> forall i :: from <= i < r ==> !RegionMatchesIgnoreCase(s, i, t)
    decreases |s| - from
  {
    if from + |t| > |s| then -1
    else if RegionMatchesIgnoreCase(s, from, t) then from
    else IndexOfIgnoreCase(s, t, from + 1)
  }

  predicate ContainsIgnoreCase(s: string, t: string) {
    IndexOfIgnoreCase(s, t, 0) >= 0
  }

  /** `contains` holds exactly when some offset matches; the empty string is contained in every string. */
  lemma ContainsIgnoreCaseIff(s: string, t: string)
    ensures ContainsIgnoreCase(s, t) <==> exists i :: 0 <= i && i + |t| <= |s| && RegionMatchesIgnoreCase(s, i, t)
    ensures t == "" ==> ContainsIgnoreCase(s, t)
  {
    if t == "" {
      assert RegionMatchesIgnoreCase(s, 0, t);
    }
  }

  /** A string contains itself whatever the case of its letters. */
  lemma ContainsItself(s: string)
    ensures ContainsIgnoreCase(s, s)
  {
    assert RegionMatchesIgnoreCase(s, 0, s);
  }

  // ---------------------------------------------------------------------------
  // The filter
  // ---------------------------------------------------------------------------

  datatype PersonsFilter = PersonsFilter(
    textFilter: Option<string>,
    distanceFilter: Option<real>,
    currentLocation: Option<LatLon>,
    sortByGender: bool,
    sortByName: bool
  )

  /** `PersonsFilter()`: every parameter at its default. */
  const DefaultFilter: PersonsFilter := PersonsFilter(None, None, None, false, false)

  /** The text test: name, surname or email contains `t`, ignoring case. */
  predicate MatchesText(p: Person, t: string) {
    ContainsIgnoreCase(p.name, t) || ContainsIgnoreCase(p.surname, t) || ContainsIgnoreCase(p.email, t)
  }

  /** Sort key of `sortedBy { it.name }`: the char codes of the name. */
  function NameKey(p: Person): (k: seq<int>)
    ensures |k| == |p.name|
    ensures forall i :: 0 <= i < |k| ==> k[i] == p.name[i] as int
  {
    seq(|p.name|, i requires 0 <= i < |p.name| => p.name[i] as int)
  }

  /** Sort key of `sortedBy { it.gender }`: the enum's ordinal. */
  function GenderKey(p: Person): seq<int> {
    [GenderOrdinal(p.gender)]
  }

  /** Two persons share a name key exactly when they share a name. */
  lemma NameKeyMatchesName(a: Person, b: Person)
    ensures NameKey(a) == NameKey(b) <==> a.name == b.name
  {
    if NameKey(a) == NameKey(b) {
      assert forall i :: 0 <= i < |a.name| ==> a.name[i] as int == b.name[i] as int;
    }
  }

  /** Persons with the same gender compare equal; otherwise MALE < FEMALE < OTHER. */
  lemma GenderKeyOrder(a: Person, b: Person)
    ensures GenderKey(a) == GenderKey(b) <==> a.gender == b.gender
    ensures LexLe(GenderKey(a), GenderKey(b)) <==> GenderOrdinal(a.gender) <= GenderOrdinal(b.gender)
  {
  }

  /** First step: keep the persons matching the text filter, when there is one. */
  function TextStep(f: PersonsFilter, persons: seq<Person>): seq<Person> {
    if f.textFilter.Some? then Filter(persons, (p: Person) => MatchesText(p, f.textFilter.value))
    else persons
  }

  /**
   * Second step: keep the persons nearer than `distanceFilter` to
   * `currentLocation`, when both are set. `distanceTo` stands for
   * `LatLon.distanceTo`, whose floating-point trigonometry is not modelled.
   */
  function DistanceStep(f: PersonsFilter, persons: seq<Person>, distanceTo: (LatLon, LatLon) -> real): seq<Person> {
    if f.distanceFilter.Some? && f.currentLocation.Some? then
      Filter(persons, (p: Person) => distanceTo(p.location.latLon, f.currentLocation.value) < f.distanceFilter.value)
    else persons
  }

  /** The two filter steps, before sorting. */
  function Filtered(f: PersonsFilter, persons: seq<Person>, distanceTo: (LatLon, LatLon) -> real): seq<Person> {
    DistanceStep(f, TextStep(f, persons), distanceTo)
  }

  /**
   * `PersonsFilter.invoke`: filter, then sort by name if asked, otherwise by
   * gender if asked, otherwise keep the order.
   */
  function Apply(f: PersonsFilter, persons: seq<Person>, distanceTo: (LatLon, LatLon) -> real): (r: seq<Person>)
    ensures multiset(r) == multiset(Filtered(f, persons, distanceTo))
    ensures f.sortByName ==> SortedBy(r, NameKey)
    ensures !f.sortByName && f.sortByGender ==> SortedBy(r, GenderKey)
    ensures !f.sortByName && !f.sortByGender ==> r == Filtered(f, persons, distanceTo)
  {
    var out := Filtered(f, persons, distanceTo);
    if f.sortByName then SortBy(out, NameKey)
    else if f.sortByGender then SortBy(out, GenderKey)
    else out
  }

  /** With no filter and no sort flag set, the list comes back unchanged. */
  lemma ApplyNoOp(f: PersonsFilter, persons: seq<Person>, distanceTo: (LatLon, LatLon) -> real)
    requires f.textFilter.None? && f.distanceFilter.None? && !f.sortByName && !f.sortByGender
    ensures Apply(f, persons, distanceTo) == persons
  {
  }

  /**
   * With a text filter `t` and no other step, a person is kept exactly when
   * its name, surname or email contains `t` ignoring case, in input order.
   */
  lemma {:induction false} TextFilterKeeps(f: PersonsFilter, persons: seq<Person>, distanceTo: (LatLon, LatLon) -> real)
    requires f.textFilter.Some? && f.distanceFilter.None? && !f.sortByName && !f.sortByGender
    ensures var r := Apply(f, persons, distanceTo);
            && IsSubsequence(r, persons)
            && (forall i :: 0 <= i < |r| ==> MatchesText(r[i], f.textFilter.value))
            && (forall i :: 0 <= i < |persons| && MatchesText(persons[i], f.textFilter.value) ==> persons[i] in r)
            && (forall q :: multiset(r)[q] == if MatchesText(q, f.textFilter.value) then multiset(persons)[q] else 0)
  {
    FilterIsSubsequence(persons, (p: Person) => MatchesText(p, f.textFilter.value));
    FilterMultiset(persons, (p: Person) => MatchesText(p, f.textFilter.value));
  }

  /** Without a distance filter or without a current location the distance step does nothing. */
  lemma DistanceStepNeedsBoth(f: PersonsFilter, persons: seq<Person>, distanceTo: (LatLon, LatLon) -> real)
    requires f.distanceFilter.None? || f.currentLocation.None?
    ensures DistanceStep(f, persons, distanceTo) == persons
  {
  }

  /** The filter steps only drop persons: before sorting the result is a subsequence of the input. */
  lemma {:induction false} FilteredIsSubsequence(f: PersonsFilter, persons: seq<Person>, distanceTo: (LatLon, LatLon) -> real)
    ensures IsSubsequence(Filtered(f, persons, distanceTo), persons)
  {
    var text := TextStep(f, persons);
    if f.textFilter.Some? {
      FilterIsSubsequence(persons, (p: Person) => MatchesText(p, f.textFilter.value));
    } else {
      SubsequenceReflexive(persons);
    }
    if f.distanceFilter.Some? && f.currentLocation.Some? {
      FilterIsSubsequence(text, (p: Person) => distanceTo(p.location.latLon, f.currentLocation.value) < f.distanceFilter.value);
    } else {
      SubsequenceReflexive(text);
    }
    SubsequenceTransitive(Filtered(f, persons, distanceTo), text, persons);
  }

  /** With both sort flags set, sorting by name wins. */
  lemma NameSortWins(f: PersonsFilter, persons: seq<Person>, distanceTo: (LatLon, LatLon) -> real)
    requires f.sortByName && f.sortByGender
    ensures Apply(f, persons, distanceTo) == SortBy(Filtered(f, persons, distanceTo), NameKey)
  {
  }

  /**
   * The sorts are stable: persons with the same name (when sorting by name)
   * or the same gender (when sorting by gender) keep their filtered order.
   */
  lemma {:induction false} ApplySortIsStable(f: PersonsFilter, persons: seq<Person>, distanceTo: (LatLon, LatLon) -> real, p: Person)
    requires f.sortByName || f.sortByGender
    ensures var key := if f.sortByName then NameKey else GenderKey;
            WithKey(Apply(f, persons, distanceTo), key, key(p))
            == WithKey(Filtered(f, persons, distanceTo), key, key(p))
  {
    var out := Filtered(f, persons, distanceTo);
    if f.sortByName {
      SortByStable(out, NameKey, NameKey(p));
    } else {
      SortByStable(out, GenderKey, GenderKey(p));
    }
  }
}
