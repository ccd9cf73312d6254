/** The patient form: its field values, the prefill from the patient being
    edited, validation, and the parameter lists of the UPDATE and INSERT
    statements it sends. */
module PatientForm {
  import opened Common
  import opened Text
  import opened Records

  /** The form's fourteen text inputs; an empty input is the empty string. */
  datatype FormData = FormData(
    firstName: string,
    lastName: string,
    email: string,
    phone: string,
    dateOfBirth: string,
    gender: string,
    address: string,
    emergencyContactName: string,
    emergencyContactPhone: string,
    medicalHistory: string,
    allergies: string,
    medications: string,
    insuranceProvider: string,
    insurancePolicyNumber: string)
  {
    /** The value of one input. */
    function Get(f: Field): string
    {
      match f
      case FirstName => firstName
      case LastName => lastName
      case Email => email
      case Phone => phone
      case DateOfBirth => dateOfBirth
      case Gender => gender
      case Address => address
      case EmergencyContactName => emergencyContactName
      case EmergencyContactPhone => emergencyContactPhone
      case MedicalHistory => medicalHistory
      case Allergies => allergies
      case Medications => medications
      case InsuranceProvider => insuranceProvider
      case InsurancePolicyNumber => insurancePolicyNumber
    }

    /** `{ ...prev, [field]: value }`: only the named input changes. */
    function Set(f: Field, value: string): (r: FormData)
      ensures r.Get(f) == value
      ensures forall g: Field :: g != f ==> r.Get(g) == Get(g)
    {
      match f
      case FirstName => this.(firstName := value)
      case LastName => this.(lastName := value)
      case Email => this.(email := value)
      case Phone => this.(phone := value)
      case DateOfBirth => this.(dateOfBirth := value)
      case Gender => this.(gender := value)
      case Address => this.(address := value)
      case EmergencyContactName => this.(emergencyContactName := value)
      case EmergencyContactPhone => this.(emergencyContactPhone := value)
      case MedicalHistory => this.(medicalHistory := value)
      case Allergies => this.(allergies := value)
      case Medications => this.(medications := value)
      case InsuranceProvider => this.(insuranceProvider := value)
      case InsurancePolicyNumber => this.(insurancePolicyNumber := value)
    }
  }

  /** The form's initial values: every input empty. */
  const Blank := FormData("", "", "", "", "", "", "", "", "", "", "", "", "", "")

  /** The prefill from a patient: each column's value, or empty when absent. */
  function Prefill(p: Patient): (r: FormData)
    ensures forall f: Field :: r.Get(f) == p.Get(f).GetOr("")
  {
    FormData(
      p.firstName, p.lastName, p.email.GetOr(""), p.phone.GetOr(""),
      p.dateOfBirth.GetOr(""), p.gender.GetOr(""), p.address.GetOr(""),
      p.emergencyContactName.GetOr(""), p.emergencyContactPhone.GetOr(""),
      p.medicalHistory.GetOr(""), p.allergies.GetOr(""), p.medications.GetOr(""),
      p.insuranceProvider.GetOr(""), p.insurancePolicyNumber.GetOr(""))
  }

  // ---------------------------------------------------------------------
  // The email check: /^[^\s@]+@[^\s@]+\.[^\s@]+$/

  /** A character of the class `[^\s@]`. */
  predicate IsAddressChar(c: char)
  {
    !IsWhitespace(c) && c != '@'
  }

  /** A non-empty run of `[^\s@]`. */
  predicate IsSegment(s: string)
  {
    |s| > 0 && forall i :: 0 <= i < |s| ==> IsAddressChar(s[i])
  }

  /** The pattern read directly: some `@` at `at` and some `.` at `dot` split
      the text into three non-empty runs of `[^\s@]`. */
  ghost predicate MatchesEmailPattern(s: string)
  {
    exists at, dot :: 0 < at < dot < |s| - 1 && s[at] == '@' && s[dot] == '.'
      && IsSegment(s[..at]) && IsSegment(s[at + 1..dot]) && IsSegment(s[dot + 1..])
  }

  /** Position of the first `c` in `s`, or `|s|` when there is none. */
  function IndexOf(s: string, c: char): (k: nat)
    ensures k <= |s|
    ensures k < |s| ==> s[k] == c
    ensures forall i :: 0 <= i < k ==> s[i] != c
  {
    if s == [] then 0 else if s[0] == c then 0 else 1 + IndexOf(s[1..], c)
  }

  /** The email check as the form evaluates it: a non-empty local part before
      the first `@`, and after it at least three characters, none of them
      whitespace or `@`, with a `.` strictly inside. */
  predicate IsEmail(s: string): (b: bool)
    ensures b ==> 5 <= |s| && '@' in s
  {
    var at := IndexOf(s, '@');
    var domain := if at < |s| then s[at + 1..] else "";
    0 < at < |s| && IsSegment(s[..at]) && |domain| >= 3
    && (forall i :: 0 <= i < |domain| ==> IsAddressChar(domain[i]))
    && '.' in domain[1..|domain| - 1]
  }

  /** A non-empty stretch of `[^\s@]` characters is a segment. */
  lemma SegmentSlice(s: string, lo: nat, hi: nat)
    requires lo < hi <= |s|
    requires forall i :: lo <= i < hi ==> IsAddressChar(s[i])
    ensures IsSegment(s[lo..hi])
  {
    forall i | 0 <= i < hi - lo ensures IsAddressChar(s[lo..hi][i]) {
      assert s[lo..hi][i] == s[lo + i];
    }
  }

  /** An `@` and a `.` that split the text into three segments witness the pattern. */
  lemma PatternAt(s: string, at: nat, dot: nat)
    requires 0 < at < dot < |s| - 1 && s[at] == '@' && s[dot] == '.'
    requires IsSegment(s[..at]) && IsSegment(s[at + 1..dot]) && IsSegment(s[dot + 1..])
    ensures MatchesEmailPattern(s)
  {
  }

  /** A domain of `[^\s@]` characters with a `.` strictly inside splits into
      two segments around it. */
  lemma DomainSegments(s: string, at: nat, dot: nat, domain: string)
    requires at + 1 < dot < |s| - 1 && domain == s[at + 1..]
    requires forall i :: 0 <= i < |domain| ==> IsAddressChar(domain[i])
    ensures IsSegment(s[at + 1..dot]) && IsSegment(s[dot + 1..])
  {
    forall i | at < i < |s| ensures IsAddressChar(s[i]) {
      assert s[i] == domain[i - at - 1];
    }
    SegmentSlice(s, at + 1, dot);
    SegmentSlice(s, dot + 1, |s|);
  }

  /** Every text the check accepts matches the pattern. */
  lemma EmailMatchesPattern(s: string)
    requires IsEmail(s)
    ensures MatchesEmailPattern(s)
  {
    var at := IndexOf(s, '@');
    var domain := s[at + 1..];
    var middle := domain[1..|domain| - 1];
    var dot := at + 2 + IndexOf(middle, '.');
    assert 0 < at && at + 1 < dot < |s| - 1 && s[at] == '@' && s[dot] == '.' by {
      assert IndexOf(middle, '.') < |middle|;
      assert s[dot] == middle[dot - at - 2];
    }
    assert IsSegment(s[..at]);
    DomainSegments(s, at, dot, domain);
    PatternAt(s, at, dot);
  }

  /** Every text the pattern matches is accepted by the check. */
  lemma PatternIsEmail(s: string, at: nat, dot: nat)
    requires 0 < at < dot < |s| - 1 && s[at] == '@' && s[dot] == '.'
    requires IsSegment(s[..at]) && IsSegment(s[at + 1..dot]) && IsSegment(s[dot + 1..])
    ensures IsEmail(s)
  {
    assert forall i :: 0 <= i < at ==> s[..at][i] == s[i];
    assert IndexOf(s, '@') == at;
    var domain := s[at + 1..];
    var k := dot - at - 1;
    forall i | 0 <= i < |domain| ensures IsAddressChar(domain[i]) {
      if i < k {
        assert domain[i] == s[at + 1..dot][i];
      } else if i > k {
        assert domain[i] == s[dot + 1..][i - k - 1];
      }
    }
    assert domain[1..|domain| - 1][k - 1] == '.';
  }

  /** The check accepts exactly the texts the pattern matches. */
  lemma IsEmailIffPattern(s: string)
    ensures IsEmail(s) <==> MatchesEmailPattern(s)
  {
    if IsEmail(s) {
      EmailMatchesPattern(s);
    }
    if MatchesEmailPattern(s) {
      var at, dot :| 0 < at < dot < |s| - 1 && s[at] == '@' && s[dot] == '.'
        && IsSegment(s[..at]) && IsSegment(s[at + 1..dot]) && IsSegment(s[dot + 1..]);
      PatternIsEmail(s, at, dot);
    }
  }

  /** Why a submission is refused before anything is sent. */
  datatype Rejection = MissingName | InvalidEmail

  /** The checks of `handleSubmit`, in order: both names non-empty, then an
      email that is empty or matches the pattern. */
  function Validate(form: FormData): (r: Option<Rejection>)
    ensures r == Some(MissingName) <==> form.firstName == "" || form.lastName == ""
    ensures r == Some(InvalidEmail) <==>
      form.firstName != "" && form.lastName != "" && form.email != "" && !MatchesEmailPattern(form.email)
    ensures r == None <==>
      form.firstName != "" && form.lastName != "" && (form.email == "" || MatchesEmailPattern(form.email))
  {
    IsEmailIffPattern(form.email);
    if form.firstName == "" || form.lastName == "" then Some(MissingName)
    else if form.email != "" && !IsEmail(form.email) then Some(InvalidEmail)
    else None
  }

  // ---------------------------------------------------------------------
  // Statement parameters.

  /** A bound parameter: a text value or SQL NULL. */
  datatype Param = Text(s: string) | SqlNull

  /** The parameter for one column: the names verbatim, any other input as
      NULL when it is empty (`value || null`). */
  function ColumnParam(form: FormData, f: Field): (r: Param)
    ensures f.IsName() ==> r == Text(form.Get(f))
    ensures !f.IsName() ==> (r == SqlNull <==> form.Get(f) == "")
    ensures r.Text? ==> r.s == form.Get(f)
  {
    if f.IsName() || form.Get(f) != "" then Text(form.Get(f)) else SqlNull
  }

  /** The fourteen column parameters in placeholder order. */
  function ColumnParams(form: FormData): (r: seq<Param>)
    ensures |r| == |Columns| == 14
    ensures forall k :: 0 <= k < |Columns| ==> r[k] == ColumnParam(form, Columns[k])
  {
    seq(|Columns|, k requires 0 <= k < |Columns| => ColumnParam(form, Columns[k]))
  }

  /** Parameters of the UPDATE: the columns as `$1` to `$14`, the id as `$15`. */
  function UpdateParams(form: FormData, id: string): (r: seq<Param>)
    ensures |r| == 15 && r[14] == Text(id)
    ensures forall f: Field :: r[Position(f)] == ColumnParam(form, f)
  {
    ColumnParams(form) + [Text(id)]
  }

  /** Parameters of the INSERT: the new id as `$1`, the columns as `$2` to `$15`. */
  function InsertParams(form: FormData, newId: string): (r: seq<Param>)
    ensures |r| == 15 && r[0] == Text(newId)
    ensures forall f: Field :: r[Position(f) + 1] == ColumnParam(form, f)
  {
    [Text(newId)] + ColumnParams(form)
  }

  /** The statement a submission sends. */
  datatype Statement = Update(params: seq<Param>) | Insert(params: seq<Param>)

  /** What a submission does once a database is present: refuse, or send an
      UPDATE when a patient is being edited and an INSERT with `newId` otherwise. */
  function Plan(form: FormData, editing: Option<Patient>, newId: string): (r: Result<Statement, Rejection>)
    ensures r.Failure? <==> Validate(form).Some?
    ensures r.Failure? ==> r.error == Validate(form).value
    ensures r.Success? ==> (r.value.Update? <==> editing.Some?)
    ensures r.Success? && editing.Some? ==> r.value.params == UpdateParams(form, editing.value.id)
    ensures r.Success? && editing.None? ==> r.value.params == InsertParams(form, newId)
  {
    match Validate(form)
    case Some(why) => Failure(why)
    case None =>
      if editing.Some? then Success(Update(UpdateParams(form, editing.value.id)))
      else Success(Insert(InsertParams(form, newId)))
  }

  /** A patient whose optional columns are each absent or non-empty. */
  predicate NoEmptyOptional(p: Patient)
  {
    forall f: Field :: !f.IsName() ==> p.Get(f) != Some("")
  }

  /** The parameter a column of `p` should be stored as. */
  function Stored(p: Patient, f: Field): Param
  {
    match p.Get(f)
    case Some(v) => Text(v)
    case None => SqlNull
  }

  /** Prefilling from a patient and normalising gives back every column of the
      patient, absent columns as NULL, exactly when no optional column holds the
      empty string (which comes back as NULL). */
  lemma PrefillRoundTrip(p: Patient)
    ensures NoEmptyOptional(p) <==> forall f: Field :: ColumnParam(Prefill(p), f) == Stored(p, f)
  {
    if !NoEmptyOptional(p) {
      var f: Field :| !f.IsName() && p.Get(f) == Some("");
      assert ColumnParam(Prefill(p), f) == SqlNull;
    }
  }

  /** An edit submitted without changes sends the patient back as stored, with its id last. */
  lemma UnchangedEditSendsPatient(p: Patient)
    requires NoEmptyOptional(p)
    ensures UpdateParams(Prefill(p), p.id) ==
      seq(|Columns|, k requires 0 <= k < |Columns| => Stored(p, Columns[k])) + [Text(p.id)]
  {
    PrefillRoundTrip(p);
  }

  /** Names made only of whitespace pass the name check, although they are
      blank once trimmed: only emptiness is tested. */
  lemma SpacesAreAName(form: FormData)
    requires form.firstName != "" && form.lastName != ""
    requires forall i :: 0 <= i < |form.firstName| ==> IsWhitespace(form.firstName[i])
    requires forall i :: 0 <= i < |form.lastName| ==> IsWhitespace(form.lastName[i])
    ensures IsBlank(form.firstName) && IsBlank(form.lastName)
    ensures Validate(form) != Some(MissingName)
  {
  }

  /** The form component's state. */
  class Form {
    const editing: Option<Patient>
    var formData: FormData
    var loading: bool

    /** Mounting the form: blank inputs, then the prefill effect for the patient
        being edited, if any. */
    constructor (editing: Option<Patient>)
      ensures this.editing == editing && !loading
      ensures formData == if editing.Some? then Prefill(editing.value) else Blank
    {
      this.editing := editing;
      formData := Blank;
      loading := false;
      new;
      PrefillEffect();
    }

    /** The effect on `patient`: prefill when a patient is given, keep the
        inputs as they are otherwise. */
    method PrefillEffect()
      modifies this
      ensures formData == if editing.Some? then Prefill(editing.value) else old(formData)
      ensures loading == old(loading)
    {
      if editing.Some? {
        formData := Prefill(editing.value);
      }
    }

    /** `handleInputChange`. */
    method HandleInputChange(f: Field, value: string)
      modifies this
      ensures formData == old(formData).Set(f, value)
      ensures formData.Get(f) == value
      ensures forall g: Field :: g != f ==> formData.Get(g) == old(formData).Get(g)
      ensures loading == old(loading)
    {
      formData := formData.Set(f, value);
    }

    /** `handleSubmit`: `hasDb` says whether a database is available, `newId`
        is the fresh id an insert would use and `succeeds` whether the database
        accepts the statement. `sent` is the statement issued, if any;
        `closeCalled` whether `onClose` ran; `loadingDuringCall` the loading
        flag while the statement is in flight. */
    method HandleSubmit(hasDb: bool, newId: string, succeeds: bool)
      returns (sent: Option<Statement>, closeCalled: bool, loadingDuringCall: bool)
      modifies this
      ensures formData == old(formData)
      ensures sent.Some? <==> hasDb && Validate(formData).None?
      ensures sent.Some? ==> Plan(formData, editing, newId) == Success(sent.value)
      ensures sent.Some? ==> loadingDuringCall && !loading
      ensures sent.None? ==> loading == old(loading)
      ensures closeCalled <==> sent.Some? && succeeds
    {
      sent, closeCalled, loadingDuringCall := None, false, loading;
      if !hasDb {
        return;
      }
      var plan := Plan(formData, editing, newId);
      if plan.Failure? {
        return;
      }
      loading := true;
      sent := Some(plan.value);
      loadingDuringCall := loading;
      if succeeds {
        closeCalled := true;
      }
      loading := false;
    }
  }
}
