/**
 * The grammar model the emitter reads: entities, their properties and the
 * tree of parse actions that produces each entity's value. The model is an
 * object graph with back-references; here a reference to another entity is
 * a snapshot (`EntityRef`) of the fields the emitter reads through it.
 */
module Grammar {
  import opened Wrappers

  /** What the emitter reads through a reference to an entity. */
  datatype EntityRef = EntityRef(
    name: string,
    isVirtual: bool,
    /** the referenced entity's parse action is a ConsumePattern */
    isExtractor: bool,
    typeName: Option<string>)

  /**
   * A named slot on an entity. `entityName` is the name of the property's
   * `Entity` (the rule it is declared in); `typeName` is its `Type`, absent
   * when the source's is null.
   */
  datatype Property = Property(
    name: string,
    entityName: string,
    isPlural: bool,
    typeName: Option<string>)

  /**
   * The five parse action kinds. Every kind carries the flags and links the
   * source's common base class holds: whether the action is optional, the
   * property it populates and its `Type`.
   */
  datatype ParseAction =
    | ConsumeString(isOptional: bool, property: Option<Property>, typeName: Option<string>,
                    literal: string)
    | ConsumePattern(isOptional: bool, property: Option<Property>, typeName: Option<string>,
                     pattern: string)
    | ConsumeEntity(isOptional: bool, property: Option<Property>, typeName: Option<string>,
                    entity: EntityRef)
    | ConsumeAll(isOptional: bool, property: Option<Property>, typeName: Option<string>,
                 actions: seq<ParseAction>)
    | ConsumeAny(isOptional: bool, property: Option<Property>, typeName: Option<string>,
                 actions: seq<ParseAction>, labelText: string)

  datatype Entity = Entity(
    name: string,
    isVirtual: bool,
    supers: seq<EntityRef>,
    properties: seq<Property>,
    parseAction: ParseAction,
    typeName: Option<string>)
  {
    predicate HasPluralProperty()
    {
      exists i :: 0 <= i < |properties| && properties[i].isPlural
    }

    /** A virtual entity that only consumes a pattern: inlined at every use. */
    predicate IsPatternLeaf()
    {
      isVirtual && parseAction.ConsumePattern?
    }

    /** A reference to this entity, as a ConsumeEntity or a Supers list holds it. */
    function Ref(): (r: EntityRef)
      ensures r.name == name && r.isVirtual == isVirtual
      ensures r.isExtractor <==> parseAction.ConsumePattern?
    {
      EntityRef(name, isVirtual, parseAction.ConsumePattern?, typeName)
    }
  }

  /** The whole grammar: its entities in declaration order and the root's name. */
  datatype Model = Model(entities: seq<Entity>, rootName: string)
}
