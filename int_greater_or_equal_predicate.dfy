/**
 * `IntGreaterOrEqualPredicate`: a filter on an `int` field of an entity that
 * carries two descriptions of itself. The metadata (the tag
 * `GREATER_OR_EQUAL` and the operand) is what a query optimiser pushes down;
 * the test closure is what runs when entities are filtered in memory. The
 * lemmas here show that both give the same answer on every entity.
 */
module IntPredicates {

  /** Java's 32-bit `int`. */
  newtype int32 = x: int | -0x8000_0000 <= x < 0x8000_0000

  /** The comparison tags of `PredicateType` that take a single operand. */
  datatype PredicateType =
    | EQUAL | NOT_EQUAL | LESS_THAN | LESS_OR_EQUAL | GREATER_THAN | GREATER_OR_EQUAL

  /**
   * What a comparison tag means to a reader of the metadata alone: whether a
   * field value passes a predicate with this tag and this operand.
   */
  predicate Holds(tag: PredicateType, fieldValue: int32, operand: int32) {
    match tag
    case EQUAL => fieldValue == operand
    case NOT_EQUAL => fieldValue != operand
    case LESS_THAN => fieldValue < operand
    case LESS_OR_EQUAL => fieldValue <= operand
    case GREATER_THAN => fieldValue > operand
    case GREATER_OR_EQUAL => fieldValue >= operand
  }

  /** The part of `HasIntValue` that the predicate uses: reading the field of an entity. */
  datatype HasIntValue<!Entity> = HasIntValue(getAsInt: Entity -> int32)

  /**
   * A predicate on an `int` field: the tag, the field and the test closure
   * kept by the `AbstractFieldPredicate` base class, and the operand `value`
   * kept by the subclass.
   */
  datatype IntGreaterOrEqualPredicate<!Entity> = IntGreaterOrEqualPredicate(
    predicateType: PredicateType,
    field: HasIntValue<Entity>,
    tester: Entity -> bool,
    value: int32)
  {
    /** The operand (`get0`). */
    function Get0(): int32 {
      value
    }

    /** Runs the test closure on one entity. */
    predicate Test(e: Entity) {
      tester(e)
    }
  }

  /**
   * The constructor: tags the predicate `GREATER_OR_EQUAL`, captures the
   * operand and builds the closure `entity -> field.getAsInt(entity) >= value`.
   */
  function NewIntGreaterOrEqualPredicate<Entity(!new)>(field: HasIntValue<Entity>, value: int32): (p: IntGreaterOrEqualPredicate<Entity>)
    ensures p.predicateType == GREATER_OR_EQUAL
    ensures p.field == field && p.Get0() == value
    ensures forall e :: p.Test(e) <==> field.getAsInt(e) >= value
  {
    IntGreaterOrEqualPredicate(GREATER_OR_EQUAL, field, e => field.getAsInt(e) >= value, value)
  }

  /**
   * Metadata agrees with behaviour: on every entity, the test closure gives
   * what the tag and the operand say.
   */
  lemma MetadataAgreesWithTest<Entity(!new)>(field: HasIntValue<Entity>, value: int32, e: Entity)
    ensures var p := NewIntGreaterOrEqualPredicate(field, value);
      p.Test(e) == Holds(p.predicateType, p.field.getAsInt(e), p.Get0())
  {
  }

  /** Filtering in memory: the test closure applied to each entity, in order. */
  function EvaluateDirect<Entity>(p: IntGreaterOrEqualPredicate<Entity>, entities: seq<Entity>): seq<bool> {
    if entities == [] then []
    else [p.Test(entities[0])] + EvaluateDirect(p, entities[1..])
  }

  /** Filtering by push-down: only the tag, the field and the operand are read, never the closure. */
  function EvaluatePushedDown<Entity>(tag: PredicateType, field: HasIntValue<Entity>, operand: int32, entities: seq<Entity>): seq<bool> {
    if entities == [] then []
    else [Holds(tag, field.getAsInt(entities[0]), operand)] + EvaluatePushedDown(tag, field, operand, entities[1..])
  }

  /** Both ways of running the predicate give the same answer on every sequence of entities. */
  lemma {:induction false} PushDownAgrees<Entity(!new)>(field: HasIntValue<Entity>, value: int32, entities: seq<Entity>)
    ensures var p := NewIntGreaterOrEqualPredicate(field, value);
      EvaluateDirect(p, entities) == EvaluatePushedDown(p.predicateType, p.field, p.Get0(), entities)
  {
    if entities != [] {
      PushDownAgrees(field, value, entities[1..]);
    }
  }

  /** Passing with an operand implies passing with every smaller operand. */
  lemma MonotonicInOperand<Entity(!new)>(field: HasIntValue<Entity>, value: int32, smaller: int32, e: Entity)
    requires smaller <= value
    requires NewIntGreaterOrEqualPredicate(field, value).Test(e)
    ensures NewIntGreaterOrEqualPredicate(field, smaller).Test(e)
  {
  }

  /** An entity with a single `int` column, `age`. */
  datatype Person = Person(age: int32)

  /**
   * `age.greaterOrEqual(18)` over people aged 17, 18 and 30: `false`, `true`,
   * `true`, whether run directly or pushed down.
   */
  lemma AgeBoundary()
    ensures var age := HasIntValue((p: Person) => p.age);
      var people := [Person(17), Person(18), Person(30)];
      var pred := NewIntGreaterOrEqualPredicate(age, 18);
      && EvaluateDirect(pred, people) == [false, true, true]
      && EvaluatePushedDown(GREATER_OR_EQUAL, age, 18, people) == [false, true, true]
  {
    var age := HasIntValue((p: Person) => p.age);
    var people := [Person(17), Person(18), Person(30)];
    PushDownAgrees(age, 18, people);
    var pred := NewIntGreaterOrEqualPredicate(age, 18);
    assert EvaluateDirect(pred, people) == [pred.Test(people[0])] + EvaluateDirect(pred, people[1..]);
  }
}
