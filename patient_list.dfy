/** The patient list: a search filter over the loaded patients, the age shown
    next to a date of birth, and the flag that marks a delete in progress. */
module PatientList {
  import opened Common
  import opened Text
  import opened Records

  /** Whether a patient matches the search term: the term, lower-cased, occurs
      in the lower-cased first name, last name or email, or the term as typed
      occurs in the phone number. A missing email or phone never matches. */
  predicate Matches(p: Patient, term: string): (b: bool)
    ensures term == "" ==> b
  {
    var t := Lower(term);
    assert term == "" ==> t == "";
    Contains(Lower(p.firstName), t)
    || Contains(Lower(p.lastName), t)
    || (p.email.Some? && Contains(Lower(p.email.value), t))
    || (p.phone.Some? && Contains(p.phone.value, term))
  }

  /** The matching rule stated with occurrences instead of the scan. */
  ghost predicate MatchesSomewhere(p: Patient, term: string)
  {
    var t := Lower(term);
    (exists i :: OccursAt(Lower(p.firstName), t, i))
    || (exists i :: OccursAt(Lower(p.lastName), t, i))
    || (p.email.Some? && exists i :: OccursAt(Lower(p.email.value), t, i))
    || (p.phone.Some? && exists i :: OccursAt(p.phone.value, term, i))
  }

  /** The search rule agrees with the occurrence rule, field by field. */
  lemma MatchesIffOccurs(p: Patient, term: string)
    ensures Matches(p, term) <==> MatchesSomewhere(p, term)
  {
    var t := Lower(term);
    ContainsIffOccurs(Lower(p.firstName), t);
    ContainsIffOccurs(Lower(p.lastName), t);
    if p.email.Some? {
      ContainsIffOccurs(Lower(p.email.value), t);
    }
    if p.phone.Some? {
      ContainsIffOccurs(p.phone.value, term);
    }
  }

  /** `filteredPatients`: the matching patients, in the order they were loaded. */
  function Visible(patients: seq<Patient>, term: string): (r: seq<Patient>)
    ensures IsSubsequence(r, patients)
    ensures forall i :: 0 <= i < |r| ==> Matches(r[i], term)
    ensures forall i :: 0 <= i < |patients| && Matches(patients[i], term) ==> patients[i] in r
    ensures term == "" ==> r == patients
  {
    var keep := (p: Patient) => Matches(p, term);
    if term == "" then
      FilterKeepsAll(patients, keep);
      Filter(patients, keep)
    else
      Filter(patients, keep)
  }

  const NoMatchMessage := "No patients found matching your search."
  const NoPatientsMessage := "No patients registered yet."

  /** The message shown in place of the list, if any. While loading, a spinner
      replaces the whole card and no message is shown; otherwise a message is
      shown only when nothing is visible, with the no-match wording exactly when
      a term was typed. */
  function EmptyStateMessage(patients: seq<Patient>, term: string, loading: bool): (m: Option<string>)
    ensures m.Some? <==> !loading && |Visible(patients, term)| == 0
    ensures m == Some(NoMatchMessage) <==> !loading && |Visible(patients, term)| == 0 && term != ""
    ensures m == Some(NoPatientsMessage) <==> !loading && |Visible(patients, term)| == 0 && term == ""
    ensures m == Some(NoPatientsMessage) ==> patients == []
  {
    if loading || |Visible(patients, term)| != 0 then None
    else if term != "" then Some(NoMatchMessage)
    else Some(NoPatientsMessage)
  }

  /** A calendar date as `getFullYear`, `getMonth` (0 to 11) and `getDate` report it. */
  datatype Date = Date(year: int, month: int, day: int)

  /** Calendar order of dates. */
  predicate NotAfter(a: Date, b: Date)
  {
    a.year < b.year
    || (a.year == b.year && (a.month < b.month || (a.month == b.month && a.day <= b.day)))
  }

  /** Today falls before the birthday in the current year. */
  predicate BeforeBirthday(today: Date, birth: Date)
  {
    var monthDiff := today.month - birth.month;
    monthDiff < 0 || (monthDiff == 0 && today.day < birth.day)
  }

  /** `calculateAge`: the difference of the years, one less before this
      year's birthday. The result is the number of birthdays that have passed:
      the `age`-th anniversary of the birth date is not after today and the
      next one is. */
  function Age(today: Date, birth: Date): (age: int)
    ensures age == today.year - birth.year - (if BeforeBirthday(today, birth) then 1 else 0)
    ensures NotAfter(Date(birth.year + age, birth.month, birth.day), today)
    ensures !NotAfter(Date(birth.year + age + 1, birth.month, birth.day), today)
    ensures today.month == birth.month && today.day == birth.day ==> age == today.year - birth.year
    ensures NotAfter(birth, today) ==> age >= 0
  {
    var age := today.year - birth.year;
    if BeforeBirthday(today, birth) then age - 1 else age
  }

  /** The list component's own state. */
  class ListView {
    var searchTerm: string
    var deletingId: Option<string>

    constructor ()
      ensures searchTerm == "" && deletingId == None
    {
      searchTerm := "";
      deletingId := None;
    }

    /** The search box's change handler. */
    method SetSearchTerm(term: string)
      modifies this
      ensures searchTerm == term && deletingId == old(deletingId)
    {
      searchTerm := term;
    }

    /** The patients shown for the current search term. */
    function Shown(patients: seq<Patient>): (r: seq<Patient>)
      reads this
      ensures |r| <= |patients|
    {
      Visible(patients, searchTerm)
    }

    /** `handleDelete`: `confirmed` is the user's answer to the confirmation
        dialog and `throws` whether `onDelete` fails. `called` says whether
        `onDelete` ran, `idDuringCall` is `deletingId` while it runs, and
        `rethrown` whether its failure reaches the caller. */
    method HandleDelete(id: string, confirmed: bool, throws: bool)
      returns (called: bool, idDuringCall: Option<string>, rethrown: bool)
      modifies this
      ensures called == confirmed && rethrown == (confirmed && throws)
      ensures searchTerm == old(searchTerm)
      ensures !confirmed ==> deletingId == old(deletingId) && idDuringCall == None
      ensures confirmed ==> idDuringCall == Some(id) && deletingId == None
    {
      if !confirmed {
        return false, None, false;
      }
      deletingId := Some(id);
      called := true;
      idDuringCall := deletingId;
      rethrown := throws;
      deletingId := None;
    }
  }
}
