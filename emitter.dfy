/**
 * The C# emitter: walks a grammar model and produces the source text of a
 * recursive-descent parser for it (entity classes, one parsing function per
 * entity, and one precompiled regular expression per pattern entity).
 *
 * Every generating function is total on a well-formed model; the model's
 * well-formedness states what the emitter needs so that it does not throw.
 * Warnings are returned with the text they were issued for.
 */
module Emitter {
  import opened Wrappers
  import opened Strings
  import opened Grammar
  import opened Naming

  // ---------------------------------------------------------------------------
  // What the emitter needs of the model

  /** A `Type` that can be cased when it is present. */
  predicate WellFormedType(t: Option<string>)
  {
    t.Some? ==> Casable(t.value)
  }

  predicate WellFormedRef(r: EntityRef)
  {
    Casable(r.name) && WellFormedType(r.typeName)
  }

  /** A plural property needs a type: its list type cases it. */
  predicate WellFormedProperty(p: Property)
  {
    Casable(p.name) && Casable(p.entityName) && WellFormedType(p.typeName) &&
    (p.isPlural ==> p.typeName.Some?)
  }

  /**
   * ConsumePattern and ConsumeEntity dereference the property they populate,
   * so they must have one.
   */
  predicate WellFormedAction(a: ParseAction)
  {
    (a.property.Some? ==> WellFormedProperty(a.property.value)) &&
    match a
    case ConsumeString(_, _, _, _) => true
    case ConsumePattern(_, property, _, _) => property.Some?
    case ConsumeEntity(_, property, _, entity) => property.Some? && WellFormedRef(entity)
    case ConsumeAll(_, _, _, actions) =>
      forall i :: 0 <= i < |actions| ==> WellFormedAction(actions[i])
    case ConsumeAny(_, _, _, actions, _) =>
      forall i :: 0 <= i < |actions| ==> WellFormedAction(actions[i])
  }

  predicate WellFormedEntity(e: Entity)
  {
    && Casable(e.name)
    && WellFormedType(e.typeName)
    && (forall i :: 0 <= i < |e.supers| && e.supers[i].isVirtual ==> Casable(e.supers[i].name))
    && (forall i :: 0 <= i < |e.properties| ==> WellFormedProperty(e.properties[i]))
    && WellFormedAction(e.parseAction)
  }

  predicate WellFormedModel(m: Model)
  {
    Casable(m.rootName) && forall i :: 0 <= i < |m.entities| ==> WellFormedEntity(m.entities[i])
  }

  // ---------------------------------------------------------------------------
  // Composing generated text

  function Plain(code: string): Emitted
  {
    Emitted(code, [])
  }

  /** `string.Join(sep, parts)` over generated text, keeping every warning in order. */
  function JoinEmitted(parts: seq<Emitted>, sep: string): Emitted
  {
    Emitted(Join(Codes(parts), sep), Flatten(Warnings(parts)))
  }

  /** The code of each part without its warnings; the ensures only name the elements. */
  function Codes(parts: seq<Emitted>): (codes: seq<string>)
    ensures |codes| == |parts|
    ensures forall i :: 0 <= i < |parts| ==> codes[i] == parts[i].code
  {
    seq(|parts|, i requires 0 <= i < |parts| => parts[i].code)
  }

  /** The warnings of each part; the ensures only name the elements. */
  function Warnings(parts: seq<Emitted>): (warnings: seq<seq<string>>)
    ensures |warnings| == |parts|
    ensures forall i :: 0 <= i < |parts| ==> warnings[i] == parts[i].warnings
  {
    seq(|parts|, i requires 0 <= i < |parts| => parts[i].warnings)
  }

  /** `.Where(x => x != null)`: the parts that were generated. */
  function Present(parts: seq<Option<Emitted>>): seq<Emitted>
  {
    if |parts| == 0 then []
    else (if parts[0].Some? then [parts[0].value] else []) + Present(parts[1..])
  }

  /** Joined text is silent exactly when every part is. */
  lemma JoinEmittedSilent(parts: seq<Emitted>, sep: string)
    ensures JoinEmitted(parts, sep).warnings == [] <==>
      forall i :: 0 <= i < |parts| ==> parts[i].warnings == []
  {
    FlattenEmpty(Warnings(parts));
  }

  /** Among parts that are all silent but one, the joined text is silent exactly when that one is. */
  lemma OneLoudPart(parts: seq<Emitted>, k: nat, sep: string)
    requires k < |parts|
    requires forall i :: 0 <= i < |parts| && i != k ==> parts[i].warnings == []
    ensures JoinEmitted(parts, sep).warnings == [] <==> parts[k].warnings == []
  {
    JoinEmittedSilent(parts, sep);
  }

  /** Text between two fixed texts is silent exactly when the middle part is. */
  lemma FramedSilent(open: string, middle: Emitted, close: string, sep: string)
    ensures JoinEmitted([Plain(open), middle, Plain(close)], sep).warnings == [] <==> middle.warnings == []
  {
    var parts := [Plain(open), middle, Plain(close)];
    assert parts[0].warnings == [] && parts[1] == middle && parts[2].warnings == [];
    OneLoudPart(parts, 1, sep);
  }

  /** The generated parts are silent exactly when every part that is there is. */
  lemma {:induction false} PresentSilent(parts: seq<Option<Emitted>>)
    ensures (forall i :: 0 <= i < |Present(parts)| ==> Present(parts)[i].warnings == []) <==>
            (forall i :: 0 <= i < |parts| && parts[i].Some? ==> parts[i].value.warnings == [])
  {
    if |parts| > 0 {
      var rest := parts[1..];
      PresentSilent(rest);
      var all, tail := Present(parts), Present(rest);
      if parts[0].Some? {
        assert all == [parts[0].value] + tail;
        assert all[0] == parts[0].value;
        assert forall i :: 0 <= i < |tail| ==> all[i + 1] == tail[i];
      } else {
        assert all == tail;
      }
      assert forall i :: 0 <= i < |rest| ==> rest[i] == parts[i + 1];
    }
  }

  /** A part's text followed by the separator, or nothing when the part is absent. */
  function Leading(part: Option<Emitted>, sep: string): string
  {
    if part.Some? then part.value.code + sep else ""
  }

  /** Joining present parts: the first one's text and the separator, then the rest. */
  lemma {:induction false} JoinPresentStep(first: Option<Emitted>, rest: seq<Option<Emitted>>, sep: string)
    requires |rest| > 0 && rest[|rest| - 1].Some?
    ensures JoinEmitted(Present([first] + rest), sep).code == Leading(first, sep) + JoinEmitted(Present(rest), sep).code
  {
    PresentCons(first, rest);
    PresentKeepsLast(rest);
    var all, tail := Present([first] + rest), Present(rest);
    if first.Some? {
      assert all == [first.value] + tail;
      JoinCodesCons(first.value, tail, sep);
    } else {
      assert all == tail;
    }
  }

  lemma {:induction false} PresentCons(first: Option<Emitted>, rest: seq<Option<Emitted>>)
    ensures Present([first] + rest) == (if first.Some? then [first.value] else []) + Present(rest)
  {
    assert ([first] + rest)[1..] == rest;
  }

  lemma {:induction false} JoinCodesCons(first: Emitted, rest: seq<Emitted>, sep: string)
    requires |rest| > 0
    ensures Join(Codes([first] + rest), sep) == first.code + sep + Join(Codes(rest), sep)
  {
    var codes := Codes([first] + rest);
    assert codes[1..] == Codes(rest);
  }

  /** A single present part is joined to its own text. */
  lemma {:induction false} JoinPresentLast(last: Emitted, sep: string)
    ensures JoinEmitted(Present([Some(last)]), sep).code == last.code
  {
    PresentCons(Some(last), []);
    assert Codes([last]) == [last.code];
  }

  /** A part list ending in a present part keeps at least that part. */
  lemma {:induction false} PresentKeepsLast(parts: seq<Option<Emitted>>)
    requires |parts| > 0 && parts[|parts| - 1].Some?
    ensures |Present(parts)| > 0
  {
    if !parts[0].Some? {
      PresentKeepsLast(parts[1..]);
    }
  }

  // ---------------------------------------------------------------------------
  // Warnings

  /** A property named like the entity it belongs to (a recursive rule). */
  predicate SelfNamed(p: Property)
  {
    p.name == p.entityName
  }

  /** A concrete entity declaring a self-named property: its member is renamed with a warning. */
  predicate RenamesProperty(e: Entity)
  {
    !e.isVirtual && exists i :: 0 <= i < |e.properties| && SelfNamed(e.properties[i])
  }

  // ---------------------------------------------------------------------------
  // Types

  /** `GenerateType(Entity)`: the C# type an entity's `Type` maps to. */
  function GenerateType(t: Option<string>): string
    requires WellFormedType(t)
  {
    match t
    case None => "Object"
    case Some(name) =>
      if name == "<string>" then "string"
      else if name == "<bool>" then "bool"
      else PascalCase(name)
  }

  /** `GenerateType(Property)`: a list of the cased type for a plural property. */
  function GeneratePropertyType(p: Property): string
    requires WellFormedProperty(p)
  {
    if p.isPlural then "List<" + PascalCase(p.typeName.value) + ">"
    else GenerateType(p.typeName)
  }

  /** The initialiser of a property's local in its entity's parsing function. */
  function LocalInitializer(p: Property): string
    requires WellFormedProperty(p)
  {
    if p.isPlural then " = new " + GeneratePropertyType(p) + "()"
    else " = " + (if GeneratePropertyType(p) == "bool" then "false" else "null")
  }

  // ---------------------------------------------------------------------------
  // Entity declarations

  /** Every entity's declaration; silent unless some entity renames a property. */
  function GenerateEntities(m: Model): (r: Emitted)
    requires WellFormedModel(m)
    ensures r.warnings == [] <==> forall i :: 0 <= i < |m.entities| ==> !RenamesProperty(m.entities[i])
  {
    EntityDeclarationsSilent(m.entities);
    JoinEmitted(EntityDeclarations(m.entities), "\n\n")
  }

  lemma {:induction false} EntityDeclarationsSilent(es: seq<Entity>)
    requires forall i :: 0 <= i < |es| ==> WellFormedEntity(es[i])
    ensures JoinEmitted(EntityDeclarations(es), "\n\n").warnings == [] <==>
      forall i :: 0 <= i < |es| ==> !RenamesProperty(es[i])
  {
    var parts := EntityDeclarations(es);
    JoinEmittedSilent(parts, "\n\n");
    forall i | 0 <= i < |es|
      ensures parts[i].warnings == [] <==> !RenamesProperty(es[i])
    {
      assert parts[i] == GenerateEntity(es[i]);
    }
  }

  /** The declaration of each entity, in declaration order: the source's `Select`, named. */
  function EntityDeclarations(es: seq<Entity>): (decls: seq<Emitted>)
    requires forall i :: 0 <= i < |es| ==> WellFormedEntity(es[i])
    ensures |decls| == |es|
    ensures forall i :: 0 <= i < |es| ==> decls[i] == GenerateEntity(es[i])
  {
    seq(|es|, i requires 0 <= i < |es| => GenerateEntity(es[i]))
  }

  function GenerateEntity(e: Entity): (r: Emitted)
    requires WellFormedEntity(e)
    ensures r.warnings == [] <==> !RenamesProperty(e)
  {
    EntitySilent(e);
    JoinEmitted(Present(EntityParts(e)), "")
  }

  /** The pieces of an entity's declaration; the absent ones are skipped. */
  function EntityParts(e: Entity): seq<Option<Emitted>>
    requires WellFormedEntity(e)
  {
    [
      Some(Plain(GenerateSignature(e))),
      GenerateProperties(e),
      GenerateConstructor(e),
      GenerateToString(e),
      Some(Plain(GenerateEntityFooter(e)))
    ]
  }

  lemma EntitySilent(e: Entity)
    requires WellFormedEntity(e)
    ensures JoinEmitted(Present(EntityParts(e)), "").warnings == [] <==> !RenamesProperty(e)
  {
    var parts := EntityParts(e);
    var props, ctor, text := GenerateProperties(e), GenerateConstructor(e), GenerateToString(e);
    assert parts == [Some(Plain(GenerateSignature(e))), props, ctor, text, Some(Plain(GenerateEntityFooter(e)))];
    JoinEmittedSilent(Present(parts), "");
    PresentSilent(parts);
    var silent := (props.Some? ==> props.value.warnings == []) &&
                  (ctor.Some? ==> ctor.value.warnings == []) &&
                  (text.Some? ==> text.value.warnings == []);
    assert silent <==> !RenamesProperty(e);
    assert (forall i :: 0 <= i < |parts| && parts[i].Some? ==> parts[i].value.warnings == []) <==> silent;
  }

  function IsVirtualRef(s: EntityRef): bool
  {
    s.isVirtual
  }

  /** The supers that shape the declared type hierarchy: the virtual ones. */
  function VirtualSupers(e: Entity): seq<EntityRef>
  {
    Filter(e.supers, IsVirtualRef)
  }

  /** The declaration line: interface or class, and the virtual supers it implements. */
  function GenerateSignature(e: Entity): string
    requires WellFormedEntity(e)
  {
    SignatureKeyword(e) + PascalCase(e.name) + SignatureTail(e)
  }

  /** The implemented virtual supers, if any, and the opening of the body. */
  function SignatureTail(e: Entity): (r: string)
    requires WellFormedEntity(e)
    ensures EndsWith(r, " {")
  {
    var names := SuperNames(e);
    var implemented := if |names| > 0 then " : " + Join(names, ", ") else "";
    Appended(implemented, " {");
    implemented + " {"
  }

  /** The cased names of the virtual supers, in declaration order. */
  function SuperNames(e: Entity): (names: seq<string>)
    requires WellFormedEntity(e)
    ensures |names| == |VirtualSupers(e)|
    ensures forall i :: 0 <= i < |names| ==>
      Casable(VirtualSupers(e)[i].name) && names[i] == PascalCase(VirtualSupers(e)[i].name)
  {
    var supers := VirtualSupers(e);
    assert forall i :: 0 <= i < |supers| ==> Casable(supers[i].name) by {
      forall i | 0 <= i < |supers|
        ensures Casable(supers[i].name)
      {
        FilterMembers(e.supers, IsVirtualRef, supers[i]);
      }
    }
    seq(|supers|, i requires 0 <= i < |supers| => PascalCase(supers[i].name))
  }

  function SignatureKeyword(e: Entity): string
  {
    "public " + (if e.isVirtual then "interface" else "class") + " "
  }

  /** The property declarations of a concrete entity; one warning per self-named property. */
  function GenerateProperties(e: Entity): (r: Option<Emitted>)
    requires WellFormedEntity(e)
    ensures r.Some? <==> !e.isVirtual
    ensures r.Some? ==> (r.value.warnings == [] <==> !RenamesProperty(e))
  {
    if e.isVirtual then None
    else
      var ps := e.properties;
      var parts := PropertyDeclarations(ps);
      JoinEmittedSilent(parts, "\n");
      assert forall i :: 0 <= i < |ps| ==> (parts[i].warnings == [] <==> !SelfNamed(ps[i]));
      var body := JoinEmitted(parts, "\n");
      Some(Emitted("\n" + body.code, body.warnings))
  }

  /** The declaration of each property, in declaration order. */
  function PropertyDeclarations(ps: seq<Property>): (decls: seq<Emitted>)
    requires forall i :: 0 <= i < |ps| ==> WellFormedProperty(ps[i])
    ensures |decls| == |ps|
    ensures forall i :: 0 <= i < |ps| ==> decls[i] == GenerateProperty(ps[i])
  {
    seq(|ps|, i requires 0 <= i < |ps| => GenerateProperty(ps[i]))
  }

  function GenerateProperty(p: Property): (r: Emitted)
    requires WellFormedProperty(p)
    ensures r.warnings == [] <==> !SelfNamed(p)
  {
    var name := GeneratePropertyName(p);
    Emitted("public " + GeneratePropertyType(p) + " " + PascalCase(name.code) + " { get; set; }",
            name.warnings)
  }

  function IsPluralProperty(p: Property): bool
  {
    p.isPlural
  }

  /** The plural properties of an entity, in declaration order. */
  function PluralProperties(e: Entity): (ps: seq<Property>)
    ensures forall i :: 0 <= i < |ps| ==> ps[i] in e.properties && ps[i].isPlural
  {
    var ps := Filter(e.properties, IsPluralProperty);
    assert forall i :: 0 <= i < |ps| ==> ps[i] in e.properties && ps[i].isPlural by {
      forall i | 0 <= i < |ps|
        ensures ps[i] in e.properties && ps[i].isPlural
      {
        FilterMembers(e.properties, IsPluralProperty, ps[i]);
      }
    }
    ps
  }

  /** A constructor that initialises every list, for concrete entities with plural properties. */
  function GenerateConstructor(e: Entity): (r: Option<Emitted>)
    requires WellFormedEntity(e)
    ensures r.Some? <==> !e.isVirtual && e.HasPluralProperty()
    ensures r.Some? ==> (r.value.warnings == [] <==>
      forall i :: 0 <= i < |PluralProperties(e)| ==> !SelfNamed(PluralProperties(e)[i]))
  {
    if e.isVirtual then None
    else if !e.HasPluralProperty() then None
    else
      var ps := PluralProperties(e);
      var parts := ConstructorLines(ps);
      JoinEmittedSilent(parts, "\n");
      assert forall i :: 0 <= i < |ps| ==> (parts[i].warnings == [] <==> !SelfNamed(ps[i]));
      var lines := JoinEmitted(parts, "\n");
      Some(Emitted(ConstructorOpen(e) + lines.code + "  }", lines.warnings))
  }

  function ConstructorOpen(e: Entity): string
    requires Casable(e.name)
  {
    "\n  public " + PascalCase(e.name) + "() {\n"
  }

  /** The list initialisation of each plural property, in declaration order. */
  function ConstructorLines(ps: seq<Property>): (lines: seq<Emitted>)
    requires forall i :: 0 <= i < |ps| ==> WellFormedProperty(ps[i])
    ensures |lines| == |ps|
    ensures forall i :: 0 <= i < |ps| ==> lines[i] == ConstructorLine(ps[i])
  {
    seq(|ps|, i requires 0 <= i < |ps| => ConstructorLine(ps[i]))
  }

  function ConstructorLine(p: Property): (r: Emitted)
    requires WellFormedProperty(p)
    ensures r.warnings == [] <==> !SelfNamed(p)
  {
    var name := GeneratePropertyName(p);
    Emitted("    this." + PascalCase(name.code) + " = new " + GeneratePropertyType(p) + "();\n",
            name.warnings)
  }

  /** The debugging `ToString` override: `Name(prop=value,...)`. */
  function GenerateToString(e: Entity): (r: Option<Emitted>)
    requires WellFormedEntity(e)
    ensures r.Some? <==> !e.isVirtual
    ensures r.Some? ==> (r.value.warnings == [] <==> !RenamesProperty(e))
  {
    if e.isVirtual then None
    else
      var ps := e.properties;
      var parts := PropertyToStrings(ps);
      JoinEmittedSilent(parts, FieldSeparator);
      assert forall i :: 0 <= i < |ps| ==> (parts[i].warnings == [] <==> !SelfNamed(ps[i]));
      var fields := JoinEmitted(parts, FieldSeparator);
      Some(Emitted(ToStringOpen(e) + fields.code + ToStringClose(|ps| > 0), fields.warnings))
  }

  /** The start of `ToString`: the method's signature and the entity's cased name. */
  function ToStringOpen(e: Entity): string
    requires Casable(e.name)
  {
    "\n  public override string ToString() {\n" +
    "    return\n" +
    "      \"" + PascalCase(e.name) + "(\" +\n"
  }

  /** The end of `ToString`: the closing parenthesis, after a continuation when there are fields. */
  function ToStringClose(hasFields: bool): string
  {
    (if hasFields then " + \n" else "") +
    "      \")\";\n" +
    "  }\n"
  }

  /** Between two fields of `ToString`: a concatenated comma and a line break. */
  const FieldSeparator: string := " + \",\" +\n"

  /** The `ToString` contribution of each property, in declaration order. */
  function PropertyToStrings(ps: seq<Property>): (fields: seq<Emitted>)
    requires forall i :: 0 <= i < |ps| ==> WellFormedProperty(ps[i])
    ensures |fields| == |ps|
    ensures forall i :: 0 <= i < |ps| ==> fields[i] == GeneratePropertyToString(ps[i])
  {
    seq(|ps|, i requires 0 <= i < |ps| => GeneratePropertyToString(ps[i]))
  }

  function GeneratePropertyToString(p: Property): (r: Emitted)
    requires WellFormedProperty(p)
    ensures r.warnings == [] <==> !SelfNamed(p)
  {
    var name := GeneratePropertyName(p);
    var member := PascalCase(name.code);
    if p.isPlural then
      Emitted("\"" + member + "=\" + \"[\" + \nstring.Join(\",\", " +
              "this." + member + ".Select(x => x.ToString())) +\n" +
              "\"]\"",
              name.warnings)
    else
      Emitted("        \"" + member + "=\" + this." + member, name.warnings)
  }

  function GenerateEntityFooter(e: Entity): string
  {
    "}"
  }

  // ---------------------------------------------------------------------------
  // Parsing functions

  function GenerateParsers(m: Model): (r: Emitted)
    requires WellFormedModel(m)
    ensures r.warnings == [] <==> GenerateEntityParsers(m).warnings == []
  {
    ParserClass(GenerateParserHeader(m), GenerateEntityParsers(m))
  }

  /** The `Parser` class: its prologue, the parsing functions and its epilogue. */
  function ParserClass(header: string, parsers: Emitted): (r: Emitted)
    ensures r.warnings == [] <==> parsers.warnings == []
  {
    FramedSilent(header, parsers, ParserFooter, "\n\n");
    JoinEmitted([Plain(header), parsers, Plain(ParserFooter)], "\n\n")
  }

  /** The fixed `Parser` class prologue, naming the root entity. */
  function GenerateParserHeader(m: Model): string
    requires Casable(m.rootName)
  {
    var root := PascalCase(m.rootName);
    ParserHeaderOpen + root + ParserHeaderMiddle + root + ParserHeaderClose
  }

  const ParserHeaderOpen: string := @"public class Parser : ParserBase {
public "

  const ParserHeaderMiddle: string := @" AST { get; set; }
public Parser Parse(string source) {
  this.Source = new Parsable(source);
  try {
    this.AST    = this.Parse"

  const ParserHeaderClose: string := @"();
  } catch(ParseException e) {
    this.Errors.Add(e);
    throw this.Source.GenerateParseException(""Failed to parse."");
  }
  if( ! this.Source.IsDone ) {
    throw this.Source.GenerateParseException(""Could not parse remaining data."");
  }
  return this;
}"

  /** The fixed `Parser` class epilogue (a debug logging helper). */
  const ParserFooter: string := @"
  [ConditionalAttribute(""DEBUG"")]
  private void Log(string msg) {
    Console.Error.WriteLine(""!!! "" + msg + "" @ "" + this.Source.Peek(10).Replace('\n', 'n'));
  }
}"

  function IsNotPatternLeaf(e: Entity): bool
  {
    !e.IsPatternLeaf()
  }

  /** The entities that get a parsing function: all but the virtual pattern entities. */
  function ParserEntities(m: Model): seq<Entity>
  {
    Filter(m.entities, IsNotPatternLeaf)
  }

  function GenerateEntityParsers(m: Model): (r: Emitted)
    requires WellFormedModel(m)
    ensures r.warnings == [] <==>
      forall i :: 0 <= i < |ParserEntities(m)| ==> !RenamesProperty(ParserEntities(m)[i])
  {
    JoinEmittedSilent(EntityParsers(m), "\n\n");
    JoinEmitted(EntityParsers(m), "\n\n")
  }

  /** The parsing function of each parser entity, in declaration order. */
  function EntityParsers(m: Model): (parsers: seq<Emitted>)
    requires WellFormedModel(m)
    ensures |parsers| == |ParserEntities(m)|
    ensures forall i :: 0 <= i < |parsers| ==>
      WellFormedEntity(ParserEntities(m)[i]) && parsers[i] == GenerateEntityParser(ParserEntities(m)[i])
  {
    var es := ParserEntities(m);
    assert forall i :: 0 <= i < |es| ==> WellFormedEntity(es[i]) by {
      forall i | 0 <= i < |es|
        ensures WellFormedEntity(es[i])
      {
        FilterMembers(m.entities, IsNotPatternLeaf, es[i]);
      }
    }
    seq(|es|, i requires 0 <= i < |es| => GenerateEntityParser(es[i]))
  }

  function GenerateEntityParser(e: Entity): (r: Emitted)
    requires WellFormedEntity(e)
    ensures r.warnings == [] <==> !RenamesProperty(e)
  {
    var parts := [
      Plain(GenerateEntityParserHeader(e)),
      Plain(GenerateParseAction(e.parseAction)),
      GenerateEntityParserFooter(e)
    ];
    assert parts[0].warnings == [] && parts[1].warnings == [];
    OneLoudPart(parts, 2, "\n\n");
    JoinEmitted(parts, "\n\n")
  }

  /** The declaration of a property's local: its type, its name and its initial value. */
  function LocalDeclaration(p: Property): string
    requires WellFormedProperty(p)
  {
    "    " + GeneratePropertyType(p) + " " + GenerateLocalVariable(p) + LocalInitializer(p) + ";"
  }

  /** The declaration of each property's local, in declaration order. */
  function LocalDeclarations(ps: seq<Property>): (decls: seq<string>)
    requires forall i :: 0 <= i < |ps| ==> WellFormedProperty(ps[i])
    ensures |decls| == |ps|
    ensures forall i :: 0 <= i < |ps| ==> decls[i] == LocalDeclaration(ps[i])
  {
    seq(|ps|, i requires 0 <= i < |ps| => LocalDeclaration(ps[i]))
  }

  /** The parsing function's signature, its locals and the opening of its attempt. */
  function GenerateEntityParserHeader(e: Entity): string
    requires WellFormedEntity(e)
  {
    ParserFunctionOpen(e) + Join(LocalDeclarations(e.properties), "\n") + ParserFunctionAttempt(e)
  }

  function ParserFunctionOpen(e: Entity): string
    requires WellFormedEntity(e)
  {
    "  public " + GenerateType(e.typeName) + " Parse" + PascalCase(e.name) + "() {\n"
  }

  function ParserFunctionAttempt(e: Entity): string
    requires Casable(e.name)
  {
    "\n\n" + "this.Log( \"Parse" + PascalCase(e.name) + "\" );\n" + "Parse( () => {\n"
  }

  function GenerateEntityParserFooter(e: Entity): (r: Emitted)
    requires WellFormedEntity(e)
    ensures r.warnings == [] <==> !RenamesProperty(e)
  {
    var ret := GenerateEntityParserReturn(e);
    Emitted("})." + "OrThrow(\"Failed to parse " + PascalCase(e.name) + "\");\n" + ret.code,
            ret.warnings)
  }

  function GenerateEntityParserReturn(e: Entity): (r: Emitted)
    requires WellFormedEntity(e)
    ensures r.warnings == [] <==> !RenamesProperty(e)
  {
    if e.isVirtual then Plain(GenerateVirtualEntityParserReturn(e))
    else GenerateRealEntityParserReturn(e)
  }

  /** A concrete entity returns a new instance built from the locals. */
  function GenerateRealEntityParserReturn(e: Entity): (r: Emitted)
    requires WellFormedEntity(e)
    ensures r.warnings == [] <==> forall i :: 0 <= i < |e.properties| ==> !SelfNamed(e.properties[i])
  {
    var ps := e.properties;
    var parts := InitializerLines(ps);
    JoinEmittedSilent(parts, ",\n");
    assert forall i :: 0 <= i < |ps| ==> (parts[i].warnings == [] <==> !SelfNamed(ps[i]));
    var fields := JoinEmitted(parts, ",\n");
    Emitted(
      ReturnNew(e) +
      (if |ps| > 0 then "{\n" + fields.code + "\n" + "}" else "") +
      ";\n}",
      if |ps| > 0 then fields.warnings else [])
  }

  /** The start of a concrete entity's return: a new instance of its class. */
  function ReturnNew(e: Entity): string
    requires Casable(e.name)
  {
    "    return new " + PascalCase(e.name) + "()"
  }

  /** The initialisation of each property from its local, in declaration order. */
  function InitializerLines(ps: seq<Property>): (lines: seq<Emitted>)
    requires forall i :: 0 <= i < |ps| ==> WellFormedProperty(ps[i])
    ensures |lines| == |ps|
    ensures forall i :: 0 <= i < |ps| ==> lines[i] == InitializerLine(ps[i])
  {
    seq(|ps|, i requires 0 <= i < |ps| => InitializerLine(ps[i]))
  }

  function InitializerLine(p: Property): (r: Emitted)
    requires WellFormedProperty(p)
    ensures r.warnings == [] <==> !SelfNamed(p)
  {
    var name := GeneratePropertyName(p);
    Emitted("      " + PascalCase(name.code) + " = " + GenerateLocalVariable(p), name.warnings)
  }

  /** A virtual entity passes on the value of its first property. */
  function GenerateVirtualEntityParserReturn(e: Entity): string
    requires WellFormedEntity(e)
  {
    if |e.properties| > 0 then
      "return " + GenerateLocalVariable(e.properties[0]) + ";\n" + "}"
    else "return;"
  }

  // ---------------------------------------------------------------------------
  // Parse actions

  /** The code of one parse action, optional actions wrapped. */
  function GenerateParseAction(a: ParseAction): string
    requires WellFormedAction(a)
  {
    var code := match a
      case ConsumeString(_, _, _, _) => GenerateConsumeString(a)
      case ConsumePattern(_, _, _, _) => GenerateConsumePattern(a)
      case ConsumeEntity(_, _, _, _) => GenerateConsumeEntity(a)
      case ConsumeAll(_, _, _, actions) =>
        GenerateConsumeAll(seq(|actions|, i requires 0 <= i < |actions| => GenerateParseAction(actions[i])))
      case ConsumeAny(_, _, _, actions, labelText) =>
        ConsumeAnyCode(seq(|actions|, i requires 0 <= i < |actions| => GenerateParseAction(actions[i])),
                       labelText);
    WrapOptional(a, code)
  }

  /** The code of each of a sequence of actions, in order. */
  function ChildCodes(actions: seq<ParseAction>): (codes: seq<string>)
    requires forall i :: 0 <= i < |actions| ==> WellFormedAction(actions[i])
    ensures |codes| == |actions|
    ensures forall i :: 0 <= i < |actions| ==> codes[i] == GenerateParseAction(actions[i])
  {
    seq(|actions|, i requires 0 <= i < |actions| => GenerateParseAction(actions[i]))
  }

  function GenerateConsumeString(a: ParseAction): string
    requires a.ConsumeString? && WellFormedAction(a)
  {
    GenerateAssignment(a) + ConsumeCall(a.isOptional, a.literal)
  }

  function ConsumeCall(optional: bool, literal: string): string
  {
    (if optional then "Maybe" else "") + "Consume(\"" + literal + "\");"
  }

  /** A pattern is consumed through the precompiled regex of the entity it belongs to. */
  function GenerateConsumePattern(a: ParseAction): string
    requires a.ConsumePattern? && WellFormedAction(a)
  {
    GenerateAssignment(a) + "Consume(Extracting." + PascalCase(a.property.value.entityName) + ");"
  }

  /** A single entity is consumed once; a plural one repeatedly into its list. */
  function GenerateConsumeEntity(a: ParseAction): string
    requires a.ConsumeEntity? && WellFormedAction(a)
  {
    var property := a.property.value;
    if property.isPlural then
      GenerateLocalVariable(property) +
      " = Many<" + GenerateType(a.entity.typeName) + ">(" +
      GenerateConsumeSingleEntity(a, true, true) + ");"
    else
      GenerateConsumeSingleEntity(a, false, false) + ";"
  }

  /**
   * A reference to a virtual pattern entity consumes its regex in place;
   * any other calls the entity's parsing function.
   */
  function GenerateConsumeSingleEntity(a: ParseAction, withoutAssignment: bool, withoutExecution: bool): string
    requires a.ConsumeEntity? && WellFormedAction(a)
  {
    var assignment := if withoutAssignment then "" else GenerateAssignment(a);
    if a.entity.isVirtual && a.entity.isExtractor then
      assignment + "Consume(Extracting." + PascalCase(a.entity.name) + ")"
    else
      assignment + "Parse" + PascalCase(a.entity.name) + (if withoutExecution then "" else "()")
  }

  /** A sequence: the children's code in declaration order. */
  function GenerateConsumeAll(codes: seq<string>): string
  {
    Join(codes, "\n\n")
  }

  /** One alternative of an alternation: the first opens with `Parse`, later ones with `.Or`. */
  function OptionBlock(first: bool, code: string): string
  {
    (if first then "Parse" else ".Or") + "( () => { \n" + code + "\n" + "})\n"
  }

  /** The alternatives that follow, `first` telling whether none was emitted yet. */
  function OptionBlocks(codes: seq<string>, first: bool): string
  {
    if |codes| == 0 then "" else OptionBlock(first, codes[0]) + OptionBlocks(codes[1..], false)
  }

  /** An alternation: every option in order, then the failure naming the label. */
  function ConsumeAnyCode(codes: seq<string>, labelText: string): string
  {
    OptionBlocks(codes, true) + OrThrow(labelText)
  }

  /** The failure of an alternation when no option parsed, naming what was expected. */
  function OrThrow(labelText: string): string
  {
    ".OrThrow(\"Expected: " + labelText + "\");\n "
  }

  /**
   * `GenerateConsumeAny`: accumulates the alternatives one by one with a
   * `first` flag, as the source's loop does.
   */
  method GenerateConsumeAny(a: ParseAction) returns (code: string)
    requires a.ConsumeAny? && WellFormedAction(a)
    ensures code == ConsumeAnyCode(ChildCodes(a.actions), a.labelText)
  {
    var actions := a.actions;
    assert forall i :: 0 <= i < |actions| ==> WellFormedAction(actions[i]);
    ghost var codes := ChildCodes(actions);
    code := "";
    var first := true;
    var i := 0;
    while i < |actions|
      invariant 0 <= i <= |actions|
      invariant first <==> i == 0
      invariant code == OptionBlocks(codes[..i], true)
    {
      var option := GenerateParseAction(actions[i]);
      OptionBlocksStep(codes, i);
      code := code + OptionBlock(first, option);
      first := false;
      i := i + 1;
    }
    assert codes[..i] == codes;
    code := code + OrThrow(a.labelText);
  }

  /** The alternatives up to option i are those up to option i-1 and the block of option i. */
  lemma OptionBlocksStep(codes: seq<string>, i: nat)
    requires i < |codes|
    ensures OptionBlocks(codes[..i + 1], true) == OptionBlocks(codes[..i], true) + OptionBlock(i == 0, codes[i])
  {
    assert codes[..i + 1] == codes[..i] + [codes[i]];
    OptionBlocksSnoc(codes[..i], codes[i], true);
  }

  /** Appending one alternative adds its block: `Parse` only if it is the very first. */
  lemma {:induction false} OptionBlocksSnoc(codes: seq<string>, code: string, first: bool)
    ensures OptionBlocks(codes + [code], first) ==
            OptionBlocks(codes, first) + OptionBlock(first && |codes| == 0, code)
  {
    if |codes| > 0 {
      assert (codes + [code])[1..] == codes[1..] + [code];
      OptionBlocksSnoc(codes[1..], code, false);
    }
  }

  function IsTryConsumeString(a: ParseAction): bool
  {
    a.isOptional && a.ConsumeString?
  }

  /**
   * Optional actions are enclosed in `Maybe( () => { ... });`, except an
   * optional ConsumeString, which already uses `MaybeConsume`.
   */
  function WrapOptional(a: ParseAction, code: string): string
  {
    if !a.isOptional then code
    else if IsTryConsumeString(a) then code
    else "Maybe( () => {\n" + code + "\n});"
  }

  /** `local = ` when the action has a type and populates a property. */
  function GenerateAssignment(a: ParseAction): string
    requires a.property.Some? ==> WellFormedProperty(a.property.value)
  {
    if a.typeName.None? then ""
    else if a.property.None? then ""
    else GenerateLocalVariable(a.property.value) + " = "
  }

  // ---------------------------------------------------------------------------
  // Extracting

  function IsExtractorEntity(e: Entity): bool
  {
    e.parseAction.ConsumePattern?
  }

  /** The entities whose action is a pattern: each gets one precompiled regex. */
  function PatternEntities(m: Model): seq<Entity>
  {
    Filter(m.entities, IsExtractorEntity)
  }

  /** The pattern inside a C# verbatim literal: every `"` doubled. */
  function EscapePattern(pattern: string): string
  {
    ReplaceChar(pattern, '"', "\"\"")
  }

  function ExtractorLine(e: Entity): string
    requires Casable(e.name) && e.parseAction.ConsumePattern?
  {
    "  public static Regex " + PascalCase(e.name) +
    " = new Regex(@\"^" + EscapePattern(e.parseAction.pattern) + "\");"
  }

  function GenerateExtracting(m: Model): string
    requires WellFormedModel(m)
  {
    ExtractingOpen + Join(ExtractorLines(m), "\n") + ExtractingClose
  }

  const ExtractingOpen: string := "public class Extracting {\n"
  const ExtractingClose: string := "\n}"

  /** The regex line of each pattern entity, in declaration order. */
  function ExtractorLines(m: Model): (lines: seq<string>)
    requires WellFormedModel(m)
    ensures |lines| == |PatternEntities(m)|
    ensures forall i :: 0 <= i < |lines| ==>
      var e := PatternEntities(m)[i];
      Casable(e.name) && e.parseAction.ConsumePattern? && lines[i] == ExtractorLine(e)
  {
    var es := PatternEntities(m);
    assert forall i :: 0 <= i < |es| ==> Casable(es[i].name) && es[i].parseAction.ConsumePattern? by {
      forall i | 0 <= i < |es|
        ensures Casable(es[i].name) && es[i].parseAction.ConsumePattern?
      {
        FilterMembers(m.entities, IsExtractorEntity, es[i]);
      }
    }
    seq(|es|, i requires 0 <= i < |es| => ExtractorLine(es[i]))
  }

  // ---------------------------------------------------------------------------
  // The file around the model

  /** Optional provenance comment; the clock's date and time are parameters. */
  function GenerateHeader(emitInfo: bool, sources: seq<string>, date: string, time: string): Option<string>
  {
    if !emitInfo then None else Some(Provenance(date, time) + SourcesLine(sources))
  }

  function Provenance(date: string, time: string): string
  {
    @"// DO NOT EDIT THIS FILE
// This file was generated using the Human Parser Generator
// (https://github.com/christophevg/human-parser-generator)
// on " + date + " at " + time
  }

  /** The grammar files the model was read from, if any. */
  function SourcesLine(sources: seq<string>): string
  {
    if |sources| > 0 then SourcesLabel(|sources|) + Join(sources, ", ") else ""
  }

  /** `Source` for one grammar file, `Sources` for several. */
  function SourcesLabel(count: nat): string
  {
    if count > 1 then "\n// Sources : " else "\n// Source : "
  }

  const References: string := @"using System;
using System.IO;
using System.Collections.Generic;
using System.Text.RegularExpressions;
using System.Linq;
using System.Diagnostics;
"

  function GenerateNamespace(ns: Option<string>): Option<string>
  {
    if ns.None? then None else Some("namespace " + ns.value + " {")
  }

  function GenerateFooter(ns: Option<string>): string
  {
    if ns.None? then "" else "}"
  }

  function Wrap(s: Option<string>): Option<Emitted>
  {
    if s.None? then None else Some(Plain(s.value))
  }

  /**
   * The whole generated file for a non-empty model. It is generated without
   * warnings exactly when no concrete entity has a property named like it.
   */
  function GenerateFile(emitInfo: bool, sources: seq<string>, ns: Option<string>,
                        m: Model, date: string, time: string): (r: Emitted)
    requires WellFormedModel(m)
    ensures r.warnings == [] <==> forall i :: 0 <= i < |m.entities| ==> !RenamesProperty(m.entities[i])
  {
    ParsersSilent(m);
    FileText(GenerateHeader(emitInfo, sources, date, time), ns,
             GenerateEntities(m), GenerateParsers(m), GenerateExtracting(m))
  }

  /** The file around its generated parts: header, references, namespace and footer are fixed text. */
  function FileText(header: Option<string>, ns: Option<string>,
                    entities: Emitted, parsers: Emitted, extracting: string): (r: Emitted)
    ensures r.warnings == [] <==> entities.warnings == [] && parsers.warnings == []
  {
    var parts := FileParts(header, ns, entities, parsers, extracting);
    JoinEmittedSilent(Present(parts), "\n\n");
    PresentSilent(parts);
    assert parts[0].Some? ==> parts[0].value.warnings == [];
    assert parts[2].Some? ==> parts[2].value.warnings == [];
    assert parts[1].value.warnings == [] && parts[5].value.warnings == [] && parts[6].value.warnings == [];
    assert parts[3] == Some(entities) && parts[4] == Some(parsers);
    assert (forall i :: 0 <= i < |parts| && parts[i].Some? ==> parts[i].value.warnings == []) <==>
           entities.warnings == [] && parsers.warnings == [];
    JoinEmitted(Present(parts), "\n\n")
  }

  /** The parts of the file in order; the header and the namespace opening may be absent. */
  function FileParts(header: Option<string>, ns: Option<string>,
                     entities: Emitted, parsers: Emitted, extracting: string): seq<Option<Emitted>>
  {
    [
      Wrap(header),
      Some(Plain(References)),
      Wrap(GenerateNamespace(ns)),
      Some(entities),
      Some(parsers),
      Some(Plain(extracting)),
      Some(Plain(GenerateFooter(ns)))
    ]
  }

  /** Every parser entity is an entity of the model: the parsing functions warn only where the declarations do. */
  lemma ParsersSilent(m: Model)
    requires WellFormedModel(m)
    ensures (forall i :: 0 <= i < |m.entities| ==> !RenamesProperty(m.entities[i])) ==>
      GenerateEntityParsers(m).warnings == []
  {
    if forall i :: 0 <= i < |m.entities| ==> !RenamesProperty(m.entities[i]) {
      var es := ParserEntities(m);
      forall i | 0 <= i < |es|
        ensures !RenamesProperty(es[i])
      {
        FilterMembers(m.entities, IsNotPatternLeaf, es[i]);
      }
    }
  }

  /** The emitter object: its configuration and the model it was last given. */
  class CSharp {
    var emitInfo: bool
    var sources: seq<string>
    var ns: Option<string>
    var model: Option<Model>

    constructor ()
      ensures !emitInfo && sources == [] && ns.None? && model.None?
    {
      emitInfo := false;
      sources := [];
      ns := None;
      model := None;
    }

    /** Remembers the model to generate from; returns the emitter for chaining. */
    method Generate(m: Model) returns (self: CSharp)
      modifies this`model
      ensures model == Some(m) && self == this
    {
      model := Some(m);
      self := this;
    }

    /** The generated source text, with the warnings issued while generating it. */
    function ToString(date: string, time: string): (r: Emitted)
      reads this
      requires model.Some? && |model.value.entities| > 0 ==> WellFormedModel(model.value)
      ensures r.warnings == [] <==>
        model.None? || forall i :: 0 <= i < |model.value.entities| ==> !RenamesProperty(model.value.entities[i])
      ensures model.None? ==> r.code == "// no model generated"
      ensures model.Some? && |model.value.entities| == 0 ==> r.code == "// no entities generated"
      ensures model.Some? && |model.value.entities| > 0 ==>
        r == GenerateFile(emitInfo, sources, ns, model.value, date, time)
    {
      if model.None? then Plain("// no model generated")
      else if |model.value.entities| == 0 then Plain("// no entities generated")
      else GenerateFile(emitInfo, sources, ns, model.value, date, time)
    }
  }
}
