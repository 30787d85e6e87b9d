/**
 * The point-of-interest form schema (lib/validations/pointOfInterest.ts): six required
 * fields, an optional but not nullable e-mail, and the shared latitude/longitude tests,
 * which also let `null` through.
 */
module PointOfInterestValidation {
  import opened Wrappers
  import opened Coordinates
  import opened SchemaRules

  /** The e-mail as the form holds it. `optional()` lets a missing one through, but the field is not
      `nullable()`, so `null` is told apart. */
  datatype EmailEntry = EmailMissing | EmailNull | EmailText(text: string)

  /** The form the schema checks. For the required fields and the coordinates, which treat a
      missing and a `null` value alike, `None` stands for either. */
  datatype PoiForm = PoiForm(
    organizationId: Option<string>, name: Option<string>, category: Option<string>,
    building: Option<string>, floor: Option<string>, status: Option<string>,
    email: EmailEntry, latitude: Option<string>, longitude: Option<string>)

  datatype PoiField =
    | OrganizationIdField | NameField | CategoryField | BuildingField | FloorField | StatusField
    | EmailField | LatitudeField | LongitudeField

  /** `string().email().optional()`: a missing or empty address passes and `null` fails; any other
      must be an e-mail address by Yup's pattern, which is not modelled and comes in as `isEmail`. */
  predicate EmailOk(email: EmailEntry, isEmail: string -> bool) {
    match email
    case EmailMissing => true
    case EmailNull => false
    case EmailText(text) => text == "" || isEmail(text)
  }

  predicate FieldOk(form: PoiForm, field: PoiField, parse: string -> ParsedNumber, isEmail: string -> bool) {
    match field
    case OrganizationIdField => Present(form.organizationId)
    case NameField => Present(form.name)
    case CategoryField => Present(form.category)
    case BuildingField => Present(form.building)
    case FloorField => Present(form.floor)
    case StatusField => Present(form.status)
    case EmailField => EmailOk(form.email, isEmail)
    case LatitudeField => LatitudeOk(form.latitude, parse)
    case LongitudeField => LongitudeOk(form.longitude, parse)
  }

  predicate FormValid(form: PoiForm, parse: string -> ParsedNumber, isEmail: string -> bool) {
    forall field :: FieldOk(form, field, parse, isEmail)
  }

  /** A form is accepted exactly when the six required fields are present, the e-mail passes and
      both coordinates pass. */
  lemma AcceptedExactly(form: PoiForm, parse: string -> ParsedNumber, isEmail: string -> bool)
    ensures FormValid(form, parse, isEmail) <==>
      && Present(form.organizationId) && Present(form.name) && Present(form.category)
      && Present(form.building) && Present(form.floor) && Present(form.status)
      && EmailOk(form.email, isEmail)
      && LatitudeOk(form.latitude, parse) && LongitudeOk(form.longitude, parse)
  {
    if FormValid(form, parse, isEmail) {
      assert FieldOk(form, OrganizationIdField, parse, isEmail) && FieldOk(form, NameField, parse, isEmail);
      assert FieldOk(form, CategoryField, parse, isEmail) && FieldOk(form, BuildingField, parse, isEmail);
      assert FieldOk(form, FloorField, parse, isEmail) && FieldOk(form, StatusField, parse, isEmail);
      assert FieldOk(form, EmailField, parse, isEmail);
      assert FieldOk(form, LatitudeField, parse, isEmail) && FieldOk(form, LongitudeField, parse, isEmail);
    }
  }

  /** Leaving the e-mail out, or leaving it empty, never makes a form fail. */
  lemma AbsentEmailNeverFails(form: PoiForm, parse: string -> ParsedNumber, isEmail: string -> bool)
    requires form.email == EmailMissing || form.email == EmailText("")
    ensures FieldOk(form, EmailField, parse, isEmail)
    ensures FormValid(form, parse, isEmail) <==>
      forall field :: field != EmailField ==> FieldOk(form, field, parse, isEmail)
  {
  }

  /** A `null` e-mail rejects the form, whatever the other fields hold. */
  lemma NullEmailRejected(form: PoiForm, parse: string -> ParsedNumber, isEmail: string -> bool)
    requires form.email == EmailNull
    ensures !FieldOk(form, EmailField, parse, isEmail)
    ensures !FormValid(form, parse, isEmail)
  {
    assert !FieldOk(form, EmailField, parse, isEmail);
  }

  /** A `null`, empty or blank latitude passes, whatever the longitude. */
  lemma NullLatitudePasses(form: PoiForm, parse: string -> ParsedNumber, isEmail: string -> bool)
    requires form.latitude.None? || form.latitude == Some("")
    ensures FieldOk(form, LatitudeField, parse, isEmail)
  {
    LatitudeRule(form.latitude, parse);
  }

  /** The two coordinates are checked independently: changing one never changes the verdict on the other. */
  lemma CoordinatesIndependent(form: PoiForm, parse: string -> ParsedNumber, isEmail: string -> bool,
                               lat: Option<string>, lon: Option<string>)
    ensures FieldOk(form.(longitude := lon), LatitudeField, parse, isEmail) == FieldOk(form, LatitudeField, parse, isEmail)
    ensures FieldOk(form.(latitude := lat), LongitudeField, parse, isEmail) == FieldOk(form, LongitudeField, parse, isEmail)
  {
    var movedLon := form.(longitude := lon);
    var movedLat := form.(latitude := lat);
    assert movedLon.latitude == form.latitude && movedLat.longitude == form.longitude;
    assert FieldOk(movedLon, LatitudeField, parse, isEmail) == LatitudeOk(form.latitude, parse);
    assert FieldOk(movedLat, LongitudeField, parse, isEmail) == LongitudeOk(form.longitude, parse);
  }

  /** Any of the six required fields missing or empty rejects the form. */
  lemma MissingRequiredFails(form: PoiForm, parse: string -> ParsedNumber, isEmail: string -> bool)
    requires !Present(form.organizationId) || !Present(form.name) || !Present(form.category)
          || !Present(form.building) || !Present(form.floor) || !Present(form.status)
    ensures !FormValid(form, parse, isEmail)
  {
    AcceptedExactly(form, parse, isEmail);
  }
}
