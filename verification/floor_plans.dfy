/**
 * The floor-plan form schemas (lib/validations/floorPlans.ts): the uploaded file's
 * type and size tests, the per-field rules shared by the create and update schemas,
 * and the file requirement only the create schema has.
 */
module FloorPlanValidation {
  import opened Wrappers
  import opened Strings
  import opened Coordinates
  import opened SchemaRules

  /** The `File` the user picked: its name, MIME type and size in bytes. */
  datatype UploadFile = UploadFile(name: string, mimeType: string, size: nat)

  const ValidTypes: seq<string> := [
    "application/pdf", "image/png", "image/jpeg", "image/jpg",
    "image/svg+xml", "application/acad", "application/x-dwg"
  ]

  const ValidExtensions: seq<string> := [".pdf", ".png", ".jpg", ".jpeg", ".svg", ".dwg", ".cad"]

  /** 10 MB. */
  const MaxFileSize: nat := 10 * 1024 * 1024

  predicate HasValidExtension(fileName: string) {
    exists i :: 0 <= i < |ValidExtensions| && EndsWith(Lower(fileName), ValidExtensions[i])
  }

  /** The "fileType" test: no file passes; a file passes on its MIME type or on its lower-cased extension. */
  predicate FileTypeOk(file: Option<UploadFile>) {
    file.None? || file.value.mimeType in ValidTypes || HasValidExtension(file.value.name)
  }

  /** The "fileSize" test: no file passes; a file passes when it is at most 10 MB. */
  predicate FileSizeOk(file: Option<UploadFile>) {
    file.None? || file.value.size <= MaxFileSize
  }

  lemma AbsentFilePasses()
    ensures FileTypeOk(None) && FileSizeOk(None)
  {
  }

  /** Size limit in bytes, and the seven accepted MIME types. */
  lemma FileLimits(file: UploadFile)
    ensures FileSizeOk(Some(file)) <==> file.size <= 10485760
    ensures |ValidTypes| == 7 && |ValidExtensions| == 7
    ensures file.mimeType in ValidTypes ==> FileTypeOk(Some(file))
  {
  }

  /** The extension test ignores case: two names that lower-case alike get the same verdict,
      and every name gets the verdict of its lower-cased form. */
  lemma ExtensionIgnoresCase(name: string, other: string, mimeType: string, size: nat)
    ensures Lower(name) == Lower(other) ==>
              FileTypeOk(Some(UploadFile(name, mimeType, size))) == FileTypeOk(Some(UploadFile(other, mimeType, size)))
    ensures FileTypeOk(Some(UploadFile(name, mimeType, size))) == FileTypeOk(Some(UploadFile(Lower(name), mimeType, size)))
  {
    LowerIdempotent(name);
  }

  /** An example: "PLAN.PDF" is accepted whatever its MIME type. */
  lemma UpperCaseExtensionAccepted(name: string, mimeType: string, size: nat)
    requires name == "PLAN.PDF"
    ensures FileTypeOk(Some(UploadFile(name, mimeType, size)))
  {
    var lower := Lower(name);
    assert lower[4] == LowerChar('.') == '.';
    assert lower[5] == LowerChar('P') == 'p';
    assert lower[6] == LowerChar('D') == 'd';
    assert lower[7] == LowerChar('F') == 'f';
    assert lower[4..] == ".pdf";
    assert EndsWith(lower, ValidExtensions[0]);
  }

  /** `/^1:\d+$/`: "1:" followed by one or more ASCII digits and nothing else. */
  predicate ScaleMatches(s: string) {
    |s| >= 3 && s[..2] == "1:" && forall i :: 2 <= i < |s| ==> IsDigit(s[i])
  }

  /** The scale a ratio `1:n` is written as. */
  function ScaleOf(n: nat): (s: string)
    ensures ScaleMatches(s)
  {
    "1:" + NatToString(n)
  }

  /** The scale written for a ratio 1:n is accepted, and its digits read back as n. */
  lemma ScaleRoundTrip(n: nat)
    ensures ScaleMatches(ScaleOf(n))
    ensures DigitsValue(ScaleOf(n)[2..]) == n
  {
    assert ScaleOf(n)[2..] == NatToString(n);
    NatToStringRoundTrip(n);
  }

  /** The form the two schemas check. */
  datatype FloorPlanForm = FloorPlanForm(
    organizationId: Option<string>, buildingId: Option<string>, floorLabel: Option<string>,
    mapName: Option<string>, mapScale: Option<string>, description: Option<string>,
    latitude: Option<string>, longitude: Option<string>, tags: Option<seq<string>>,
    selectedFile: Option<UploadFile>)

  datatype FloorPlanField =
    | OrganizationIdField | BuildingIdField | FloorLabelField | MapNameField | MapScaleField
    | DescriptionField | LatitudeField | LongitudeField | TagsField | SelectedFileField

  datatype Schema = CreateSchema | UpdateSchema

  /** One field's rules under a schema. */
  predicate FieldOk(form: FloorPlanForm, field: FloorPlanField, parse: string -> ParsedNumber, schema: Schema) {
    match field
    case OrganizationIdField => Present(form.organizationId)
    case BuildingIdField => Present(form.buildingId)
    case FloorLabelField => Present(form.floorLabel)
    case MapNameField => form.mapName.Some? && 2 <= |form.mapName.value| <= 120
    case MapScaleField => Present(form.mapScale) && ScaleMatches(form.mapScale.value)
    case DescriptionField => Present(form.description) && |form.description.value| <= 500
    case LatitudeField => LatitudeOk(form.latitude, parse)
    case LongitudeField => LongitudeOk(form.longitude, parse)
    case TagsField => form.tags.None? || forall i :: 0 <= i < |form.tags.value| ==> |form.tags.value[i]| <= 40
    case SelectedFileField =>
      schema == UpdateSchema || (form.selectedFile.Some? && FileTypeOk(form.selectedFile) && FileSizeOk(form.selectedFile))
  }

  /** The schema accepts the form when every field passes. */
  predicate FormValid(form: FloorPlanForm, parse: string -> ParsedNumber, schema: Schema) {
    forall field :: FieldOk(form, field, parse, schema)
  }

  /** The create schema is the update schema plus a required file that passes both file tests. */
  lemma CreateIsUpdatePlusFile(form: FloorPlanForm, parse: string -> ParsedNumber)
    ensures FormValid(form, parse, CreateSchema) <==>
      && FormValid(form, parse, UpdateSchema)
      && form.selectedFile.Some? && FileTypeOk(form.selectedFile) && FileSizeOk(form.selectedFile)
  {
    if FormValid(form, parse, CreateSchema) {
      assert FieldOk(form, SelectedFileField, parse, CreateSchema);
      forall field ensures FieldOk(form, field, parse, UpdateSchema) {
        assert FieldOk(form, field, parse, CreateSchema);
      }
    }
    if FormValid(form, parse, UpdateSchema) && form.selectedFile.Some? && FileTypeOk(form.selectedFile) && FileSizeOk(form.selectedFile) {
      forall field ensures FieldOk(form, field, parse, CreateSchema) {
        assert FieldOk(form, field, parse, UpdateSchema);
      }
    }
  }

  /** The update schema does not look at the file at all. */
  lemma UpdateIgnoresFile(form: FloorPlanForm, parse: string -> ParsedNumber, file: Option<UploadFile>)
    ensures FormValid(form, parse, UpdateSchema) <==> FormValid(form.(selectedFile := file), parse, UpdateSchema)
  {
    var other := form.(selectedFile := file);
    if FormValid(form, parse, UpdateSchema) {
      forall field ensures FieldOk(other, field, parse, UpdateSchema) {
        assert FieldOk(form, field, parse, UpdateSchema);
      }
    }
    if FormValid(other, parse, UpdateSchema) {
      forall field ensures FieldOk(form, field, parse, UpdateSchema) {
        assert FieldOk(other, field, parse, UpdateSchema);
      }
    }
  }

  /** The length limits: a map name of 2 to 120 characters, a description of at most 500, tags of at most 40. */
  lemma LengthLimits(form: FloorPlanForm, parse: string -> ParsedNumber, schema: Schema)
    ensures FieldOk(form, MapNameField, parse, schema) <==> form.mapName.Some? && 2 <= |form.mapName.value| <= 120
    ensures form.description.Some? && |form.description.value| > 500 ==> !FormValid(form, parse, schema)
    ensures form.tags.Some? && (exists i :: 0 <= i < |form.tags.value| && |form.tags.value[i]| > 40) ==>
              !FormValid(form, parse, schema)
  {
    if form.description.Some? && |form.description.value| > 500 {
      assert !FieldOk(form, DescriptionField, parse, schema);
    }
    if form.tags.Some? && (exists i :: 0 <= i < |form.tags.value| && |form.tags.value[i]| > 40) {
      assert !FieldOk(form, TagsField, parse, schema);
    }
  }

  /** A scale that is not exactly "1:" and digits rejects the form under either schema. */
  lemma BadScaleRejected(form: FloorPlanForm, parse: string -> ParsedNumber, schema: Schema)
    requires form.mapScale.Some? && !ScaleMatches(form.mapScale.value)
    ensures !FormValid(form, parse, schema)
  {
    assert !FieldOk(form, MapScaleField, parse, schema);
  }
}
