/** The patient record as the pages and components see it: a row of the
    `patients` table, with its optional columns either absent or a string. */
module Records {
  import opened Common

  /** The fourteen editable columns of a patient, in the order in which both the
      UPDATE and the INSERT statement bind them. */
  datatype Field =
    | FirstName | LastName | Email | Phone | DateOfBirth | Gender | Address
    | EmergencyContactName | EmergencyContactPhone | MedicalHistory | Allergies
    | Medications | InsuranceProvider | InsurancePolicyNumber
  {
    /** The two columns the form requires; all others are optional. */
    predicate IsName()
    {
      this == FirstName || this == LastName
    }
  }

  /** Column order of the statements' placeholders. */
  const Columns: seq<Field> := [
    FirstName, LastName, Email, Phone, DateOfBirth, Gender, Address,
    EmergencyContactName, EmergencyContactPhone, MedicalHistory, Allergies,
    Medications, InsuranceProvider, InsurancePolicyNumber
  ]

  /** Zero-based position of a column in `Columns`. */
  function Position(f: Field): (k: nat)
    ensures k < |Columns| && Columns[k] == f
  {
    match f
    case FirstName => 0
    case LastName => 1
    case Email => 2
    case Phone => 3
    case DateOfBirth => 4
    case Gender => 5
    case Address => 6
    case EmergencyContactName => 7
    case EmergencyContactPhone => 8
    case MedicalHistory => 9
    case Allergies => 10
    case Medications => 11
    case InsuranceProvider => 12
    case InsurancePolicyNumber => 13
  }

  /** Every editable column appears in `Columns`, exactly once. */
  lemma ColumnsEnumerateFields()
    ensures |Columns| == 14 && Distinct(Columns)
    ensures forall f: Field :: f in Columns
  {
    forall f: Field ensures f in Columns {
      assert Columns[Position(f)] == f;
    }
  }

  /** A patient row; timestamps are kept as the text the database returns. */
  datatype Patient = Patient(
    id: string,
    firstName: string,
    lastName: string,
    email: Option<string>,
    phone: Option<string>,
    dateOfBirth: Option<string>,
    gender: Option<string>,
    address: Option<string>,
    emergencyContactName: Option<string>,
    emergencyContactPhone: Option<string>,
    medicalHistory: Option<string>,
    allergies: Option<string>,
    medications: Option<string>,
    insuranceProvider: Option<string>,
    insurancePolicyNumber: Option<string>,
    createdAt: string,
    updatedAt: string)
  {
    /** The value of one editable column; the two names are always present. */
    function Get(f: Field): (r: Option<string>)
      ensures f.IsName() ==> r.Some?
    {
      match f
      case FirstName => Some(firstName)
      case LastName => Some(lastName)
      case Email => email
      case Phone => phone
      case DateOfBirth => dateOfBirth
      case Gender => gender
      case Address => address
      case EmergencyContactName => emergencyContactName
      case EmergencyContactPhone => emergencyContactPhone
      case MedicalHistory => medicalHistory
      case Allergies => allergies
      case Medications => medications
      case InsuranceProvider => insuranceProvider
      case InsurancePolicyNumber => insurancePolicyNumber
    }
  }
}
