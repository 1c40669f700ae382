// routing/v2/catalog.py: the constraint checks the parser can produce.
module Catalog {
  import opened Wrappers
  import opened Matching

  datatype Field =
    | NameField | LengthField | RankMinField | RankMaxField | IndexField
    | MinField | MaxField | MultipleOfField | IotaField | EqualsField | DividesField

  predicate Populated(check: ConstraintCheck, field: Field) {
    match field
    case NameField => check.name.Some?
    case LengthField => check.length.Some?
    case RankMinField => check.rankMin.Some?
    case RankMaxField => check.rankMax.Some?
    case IndexField => check.index.Some?
    case MinField => check.min.Some?
    case MaxField => check.max.Some?
    case MultipleOfField => check.multipleOf.Some?
    case IotaField => check.iota
    case EqualsField => check.equals != []
    case DividesField => check.divides != []
  }

  // _constraint_has_only; a literal value is not among the fields it looks at.
  predicate HasOnly(check: ConstraintCheck, allowed: set<Field>) {
    forall field: Field :: Populated(check, field) ==> field in allowed
  }

  // The shapes _parse_equals_constraint, _parse_divides_constraint and
  // _parse_capture_constraint can return.
  predicate ParserProduces(check: ConstraintCheck) {
    || (|check.equals| >= 2 && HasOnly(check, {EqualsField}) && check.literal.None?)
    || (|check.divides| >= 2 && HasOnly(check, {DividesField}) && check.literal.None?)
    || (check.name.Some? && check.literal.Some? && HasOnly(check, {NameField, IndexField}))
    || (check.name.Some? && check.literal.None? && ParserProducesPlain(check))
  }

  predicate ParserProducesPlain(check: ConstraintCheck) {
    || ((check.rankMin.Some? || check.rankMax.Some?) && HasOnly(check, {NameField, RankMinField, RankMaxField}))
    || (check.length.Some? && HasOnly(check, {NameField, LengthField}))
    || (check.iota && HasOnly(check, {NameField, IotaField}))
    || ((check.min.Some? || check.max.Some? || check.multipleOf.Some?)
        && HasOnly(check, {NameField, IndexField, MinField, MaxField, MultipleOfField}))
  }

  lemma PopulatedFields(check: ConstraintCheck)
    ensures check.name.Some? <==> Populated(check, NameField)
    ensures check.length.Some? <==> Populated(check, LengthField)
    ensures check.rankMin.Some? <==> Populated(check, RankMinField)
    ensures check.rankMax.Some? <==> Populated(check, RankMaxField)
    ensures check.index.Some? <==> Populated(check, IndexField)
    ensures check.min.Some? <==> Populated(check, MinField)
    ensures check.max.Some? <==> Populated(check, MaxField)
    ensures check.multipleOf.Some? <==> Populated(check, MultipleOfField)
    ensures check.iota <==> Populated(check, IotaField)
    ensures check.equals != [] <==> Populated(check, EqualsField)
    ensures check.divides != [] <==> Populated(check, DividesField)
  {
  }
}
