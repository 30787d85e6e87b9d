/**
 * The field rule the floor-plan and point-of-interest schemas both use
 * (lib/validations/floorPlans.ts and lib/validations/pointOfInterest.ts).
 */
module SchemaRules {
  import opened Wrappers

  /** Yup's `string().required()`: present, not `null`, and not empty. */
  predicate Present(v: Option<string>) {
    v.Some? && v.value != ""
  }
}
