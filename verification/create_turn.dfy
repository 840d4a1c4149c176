/**
 * The form that creates a turn from the club's side: the start times offered, the three
 * validity checks, the switches that reset each other, and the arguments handed to the turn
 * service on submission.
 */
module CreateTurn {

  import opened Wrappers
  import opened Strings
  import opened Sorting
  import opened Lists
  import opened TurnService

  // ---------------------------------------------------------------- start times

  /** `Array.from(new Set(times))`: the first occurrence of each time, in order. */
  function Distinct(s: seq<string>): (r: seq<string>)
    ensures forall x :: x in r <==> x in s
    ensures forall i, j | 0 <= i < j < |r| :: r[i] != r[j]
    decreases |s|
  {
    if s == [] then []
    else
      var d := Distinct(s[..|s| - 1]);
      assert forall x :: x in s <==> x in s[..|s| - 1] || x == s[|s| - 1] by {
        assert s == s[..|s| - 1] + [s[|s| - 1]];
      }
      if s[|s| - 1] in d then d else d + [s[|s| - 1]]
  }

  /** "`a` sorts after `b`" under the default string order. */
  predicate SortsAfter(a: string, b: string) {
    LexLess(b, a)
  }

  /**
   * `availableTimes`: the start times of the club's first template, each once, in ascending
   * string order; nothing without a template.
   */
  function AvailableTimes(templates: seq<Option<seq<string>>>): (r: seq<string>)
    ensures templates == [] || templates[0].None? ==> r == []
    ensures templates != [] && templates[0].Some? ==> forall x :: x in r <==> x in templates[0].value
    ensures forall i, j | 0 <= i < j < |r| :: LexLess(r[i], r[j])
  {
    if templates == [] || templates[0].None? then []
    else
      var d := Distinct(templates[0].value);
      var r := Sort(d, SortsAfter);
      SortedDistinctAscending(d, r);
      r
  }

  lemma SortedDistinctAscending(d: seq<string>, r: seq<string>)
    requires forall i, j | 0 <= i < j < |d| :: d[i] != d[j]
    requires r == Sort(d, SortsAfter)
    ensures forall x :: x in r <==> x in d
    ensures forall i, j | 0 <= i < j < |r| :: LexLess(r[i], r[j])
  {
    var u := set x | x in d;
    forall a, b | a in u && b in u ensures SortsAfter(a, b) ==> !SortsAfter(b, a) {
      LexAsymmetric(b, a);
    }
    forall a, b, c | a in u && b in u && c in u ensures !SortsAfter(a, b) && !SortsAfter(b, c) ==> !SortsAfter(a, c) {
      LexTotal(a, b);
      LexTotal(b, c);
      LexTransitive(a, b, c);
      LexAsymmetric(a, c);
    }
    SortSorted(d, SortsAfter, u);
    forall x ensures x in r <==> x in d {
      assert x in r <==> x in multiset(r);
    }
    assert multiset(r) == multiset(d);
    forall i, j | 0 <= i < j < |r| ensures LexLess(r[i], r[j]) {
      assert !SortsAfter(r[i], r[j]);
      assert r[i] != r[j] by {
        DistinctPermutation(d, r, i, j);
      }
      LexTotal(r[i], r[j]);
    }
  }

  /** A permutation of a list without repetitions has none either. */
  lemma DistinctPermutation(d: seq<string>, r: seq<string>, i: nat, j: nat)
    requires forall a, b | 0 <= a < b < |d| :: d[a] != d[b]
    requires multiset(r) == multiset(d)
    requires i < j < |r|
    ensures r[i] != r[j]
  {
    if r[i] == r[j] {
      assert multiset(r)[r[i]] >= 2 by {
        assert r == r[..i] + [r[i]] + r[i + 1..j] + [r[j]] + r[j + 1..];
      }
      DistinctCount(d, r[i]);
    }
  }

  lemma {:induction false} DistinctCount(d: seq<string>, x: string)
    requires forall a, b | 0 <= a < b < |d| :: d[a] != d[b]
    ensures multiset(d)[x] <= 1
    decreases |d|
  {
    if d != [] {
      var rest := d[1..];
      DistinctCount(rest, x);
      assert d == [d[0]] + rest;
      if d[0] == x {
        assert x !in rest;
      }
    }
  }

  // ---------------------------------------------------------------- the form

  datatype Organizer = Organizer(id: int, gender: Option<string>, category: Option<string>)

  datatype Form = Form(
    date: Option<string>,
    startTime: Option<string>,
    courtId: Option<int>,
    organizer: Option<Organizer>,
    playerSide: string,
    playerPosition: string,
    categoryRestricted: bool,
    restrictionType: string,
    isMixedMatch: bool,
    freeCategory: string)

  predicate Filled(s: Option<string>) {
    s.Some? && s.value != []
  }

  /** `isFormValid`: a date, a start time, a court and an organizer are chosen. */
  predicate IsFormValid(f: Form) {
    Filled(f.date) && Filled(f.startTime) && Truthy(f.courtId) && f.organizer.Some?
  }

  /**
   * `isMixedMatchValid`: always outside a mixed match; in one the organizer needs a gender,
   * and a woman organizer also a free category.
   */
  predicate IsMixedMatchValid(f: Form) {
    !f.isMixedMatch ||
      (f.organizer.Some? && Filled(f.organizer.value.gender) &&
       (f.organizer.value.gender.value == "Femenino" ==> f.freeCategory != []))
  }

  /** `isCategoryRestrictionValid`: a restriction needs a type other than NONE. */
  predicate IsCategoryRestrictionValid(f: Form) {
    !f.categoryRestricted || f.restrictionType != "NONE"
  }

  datatype Submission = Refused(message: string) | Submitted(params: CreateParams)

  /**
   * The arguments of a valid form: the restriction type only under a restriction, the free
   * category only in a mixed match, and empty texts and false flags as absent.
   */
  function SubmitParams(f: Form, clubId: int): (p: CreateParams)
    requires IsFormValid(f)
    ensures p.clubId == clubId && p.courtId == f.courtId.value && p.organizerId == f.organizer.value.id
    ensures p.startTime == f.startTime.value && p.targetDate == f.date.value
    ensures p.playerSide.Some? <==> f.playerSide != []
    ensures p.playerPosition.Some? <==> f.playerPosition != []
    ensures p.categoryRestricted.Some? <==> f.categoryRestricted
    ensures p.restrictionType.Some? <==> f.categoryRestricted
    ensures p.isMixedMatch.Some? <==> f.isMixedMatch
    ensures p.freeCategory.Some? <==> f.isMixedMatch
    ensures p.categoryRestricted != Some(false) && p.isMixedMatch != Some(false)
  {
    CreateParams(
      clubId, f.startTime.value, f.date.value, f.courtId.value, f.organizer.value.id,
      if f.playerSide != [] then Some(f.playerSide) else None,
      if f.playerPosition != [] then Some(f.playerPosition) else None,
      if f.categoryRestricted then Some(true) else None,
      if f.categoryRestricted then Some(f.restrictionType) else None,
      if f.isMixedMatch then Some(true) else None,
      if f.isMixedMatch then Some(f.freeCategory) else None)
  }

  const IncompleteMessage := "Por favor, completa todos los campos requeridos"
  const MixedMessage :=
    "Para partidos mixtos, el organizador debe tener género asignado y, si es mujer, debe especificar la categoría libre"
  const RestrictionMessage := "Si activas restricciones de categoría, debes seleccionar un tipo de restricción"

  /**
   * `handleSubmit`: refused with the first failing check's message, submitted when the form
   * is complete, the club is known and both other checks hold.
   */
  function HandleSubmit(f: Form, clubId: Option<int>): (s: Submission)
    ensures s.Submitted? <==> IsFormValid(f) && Truthy(clubId) && IsMixedMatchValid(f) && IsCategoryRestrictionValid(f)
    ensures !(IsFormValid(f) && Truthy(clubId)) ==> s == Refused(IncompleteMessage)
    ensures IsFormValid(f) && Truthy(clubId) && !IsMixedMatchValid(f) ==> s == Refused(MixedMessage)
    ensures IsFormValid(f) && Truthy(clubId) && IsMixedMatchValid(f) && !IsCategoryRestrictionValid(f) ==>
      s == Refused(RestrictionMessage)
    ensures s.Submitted? ==> s.params == SubmitParams(f, clubId.value)
  {
    if !IsFormValid(f) || !Truthy(clubId) then Refused(IncompleteMessage)
    else if !IsMixedMatchValid(f) then Refused(MixedMessage)
    else if !IsCategoryRestrictionValid(f) then Refused(RestrictionMessage)
    else Submitted(SubmitParams(f, clubId.value))
  }

  /** The create button is enabled when the three checks hold and no creation is under way. */
  function ButtonEnabled(f: Form, pending: bool): (enabled: bool)
    ensures enabled ==> IsFormValid(f) && IsMixedMatchValid(f) && IsCategoryRestrictionValid(f)
    ensures pending ==> !enabled
    ensures IsFormValid(f) && IsMixedMatchValid(f) && IsCategoryRestrictionValid(f) && !pending ==> enabled
  {
    IsFormValid(f) && IsMixedMatchValid(f) && IsCategoryRestrictionValid(f) && !pending
  }

  /** With the button enabled, a click submits exactly when the club is known. */
  lemma EnabledButtonSubmits(f: Form, clubId: Option<int>)
    requires ButtonEnabled(f, false)
    ensures HandleSubmit(f, clubId).Submitted? <==> Truthy(clubId)
  {
  }

  /** For a known club, the idle button is enabled exactly when a click would submit. */
  lemma ButtonAgreesWithSubmit(f: Form, clubId: Option<int>)
    requires Truthy(clubId)
    ensures ButtonEnabled(f, false) <==> HandleSubmit(f, clubId).Submitted?
  {
  }

  /** The parameters a submission sends never carry a false flag. */
  lemma SubmittedQueryHasNoFalseFlag(f: Form, clubId: int)
    requires IsFormValid(f)
    ensures var q := CreateQuery(SubmitParams(f, clubId));
      (CategoryRestricted, "false") !in q && (IsMixedMatch, "false") !in q
  {
    NoFalseFlagSent(SubmitParams(f, clubId));
  }

  // ---------------------------------------------------------------- switches

  /** The restriction switch; turning it off resets the type to NONE. */
  function SetCategoryRestricted(f: Form, checked: bool): (g: Form)
    ensures g.categoryRestricted == checked
    ensures !checked ==> g.restrictionType == "NONE"
    ensures checked ==> g.restrictionType == f.restrictionType
    ensures g.(categoryRestricted := f.categoryRestricted, restrictionType := f.restrictionType) == f
    ensures !checked ==> IsCategoryRestrictionValid(g)
  {
    f.(categoryRestricted := checked, restrictionType := if checked then f.restrictionType else "NONE")
  }

  /**
   * The mixed-match switch. Turning it on lifts any restriction (type NONE) and, for a man
   * organizer, takes the organizer's category (default '9na') as the free category; turning it off
   * clears the free category.
   */
  function SetMixedMatch(f: Form, checked: bool): (g: Form)
    ensures g.isMixedMatch == checked
    ensures checked ==> !g.categoryRestricted && g.restrictionType == "NONE" && IsCategoryRestrictionValid(g)
    ensures checked && f.organizer.Some? && f.organizer.value.gender == Some("Masculino") ==>
      g.freeCategory == (if Filled(f.organizer.value.category) then f.organizer.value.category.value else "9na")
    ensures checked && !(f.organizer.Some? && f.organizer.value.gender == Some("Masculino")) ==> g.freeCategory == f.freeCategory
    ensures !checked ==> g.freeCategory == [] && g.categoryRestricted == f.categoryRestricted && g.restrictionType == f.restrictionType
    ensures g.date == f.date && g.startTime == f.startTime && g.courtId == f.courtId && g.organizer == f.organizer
  {
    if checked then
      var man := f.organizer.Some? && f.organizer.value.gender == Some("Masculino");
      f.(isMixedMatch := true, categoryRestricted := false, restrictionType := "NONE",
         freeCategory := if man then (if Filled(f.organizer.value.category) then f.organizer.value.category.value else "9na")
                         else f.freeCategory)
    else f.(isMixedMatch := false, freeCategory := "")
  }

  /** Switching a mixed match on for a man organizer leaves a form whose mixed check holds. */
  lemma MixedOnForManIsValid(f: Form)
    requires f.organizer.Some? && f.organizer.value.gender == Some("Masculino")
    ensures IsMixedMatchValid(SetMixedMatch(f, true)) && IsCategoryRestrictionValid(SetMixedMatch(f, true))
  {
  }
}
