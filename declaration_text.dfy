/**
 * The text of the entity classes: what each member is called, how each
 * property is declared, initialised and printed, and where every piece of a
 * class declaration sits in the generated file.
 */
module DeclarationText {
  import opened Wrappers
  import opened Strings
  import opened Grammar
  import opened Naming
  import opened Emitter

  // ---------------------------------------------------------------------------
  // Member names

  /**
   * The C# member that holds a property, in closed form: a self-named
   * property becomes `Next` and its cased name, any other keeps its cased
   * name followed by its plural suffix.
   */
  function MemberName(p: Property): string
    requires WellFormedProperty(p)
  {
    if SelfNamed(p) then "Next" + PascalCase(p.name) else PascalCase(p.name) + PluralSuffix(p)
  }

  /** Casing the name `GeneratePropertyName` chooses gives `MemberName`. */
  lemma {:induction false} MemberNamed(p: Property)
    requires WellFormedProperty(p)
    ensures PascalCase(GeneratePropertyName(p).code) == MemberName(p)
  {
    if SelfNamed(p) {
      SplitNoSep("next", '-');
      PascalCaseSegment("next");
      assert LowerAll("ext") == "ext";
      PascalCaseDash("next", p.name);
      assert "next-" + p.name == "next" + "-" + p.name;
    } else {
      var suffix := PluralSuffix(p);
      assert LowerAll(suffix) == suffix;
      PascalCaseAppend(p.name, suffix);
    }
  }

  /**
   * The self-name check compares the raw names before the plural suffix is
   * added, so a plural property (`item`) of an entity named like its plural
   * (`items`) is not renamed and draws no warning, though its member is
   * named like the entity's class (`Items`).
   */
  lemma PluralMemberMayShareClassName(p: Property)
    requires WellFormedProperty(p) && p.isPlural && !EndsWith(p.name, "x") && p.entityName == p.name + "s"
    ensures !SelfNamed(p) && GenerateProperty(p).warnings == []
    ensures MemberName(p) == PascalCase(p.entityName)
  {
    assert |p.entityName| != |p.name|;
    assert LowerAll("s") == "s";
    PascalCaseAppend(p.name, "s");
  }

  // ---------------------------------------------------------------------------
  // One line per property

  /** A property is declared as an auto-property of its C# type, under its member name. */
  lemma PropertyDeclarationText(p: Property)
    requires WellFormedProperty(p)
    ensures GenerateProperty(p).code ==
      "public " + GeneratePropertyType(p) + " " + MemberName(p) + " { get; set; }"
  {
    MemberNamed(p);
  }

  /**
   * The constructor gives a property's member a new, empty value of its
   * type: for a plural property, a new list of its cased type.
   */
  lemma ConstructorLineText(p: Property)
    requires WellFormedProperty(p)
    ensures ConstructorLine(p).code ==
      "    this." + MemberName(p) + " = new " + GeneratePropertyType(p) + "();\n"
    ensures p.isPlural ==>
      ConstructorLine(p).code ==
        "    this." + MemberName(p) + " = new List<" + PascalCase(p.typeName.value) + ">();\n"
  {
    MemberNamed(p);
  }

  /**
   * `ToString` prints a property as `Member=` and its value; a plural one as
   * `Member=[` and its elements' strings joined by commas, then `]`.
   */
  lemma PropertyToStringText(p: Property)
    requires WellFormedProperty(p)
    ensures var member := MemberName(p);
      && (!p.isPlural ==>
            GeneratePropertyToString(p).code == "        \"" + member + "=\" + this." + member)
      && (p.isPlural ==>
            GeneratePropertyToString(p).code ==
              "\"" + member + "=\" + \"[\" + \nstring.Join(\",\", this." + member +
              ".Select(x => x.ToString())) +\n\"]\"")
  {
    MemberNamed(p);
  }

  /** The returned instance's member is set from the property's local. */
  lemma InitializerLineText(p: Property)
    requires WellFormedProperty(p)
    ensures InitializerLine(p).code == "      " + MemberName(p) + " = " + GenerateLocalVariable(p)
  {
    MemberNamed(p);
  }

  // ---------------------------------------------------------------------------
  // Property declarations

  /**
   * A concrete entity's declarations start on a new line, and property k is
   * declared `public <type> <member> { get; set; }` at its place, after the
   * declarations of the properties before it, one per line.
   */
  lemma {:induction false} PropertiesPlaced(e: Entity, k: nat)
    requires WellFormedEntity(e) && !e.isVirtual && k < |e.properties|
    ensures GenerateProperties(e).Some?
    ensures var p := e.properties[k];
      var code := GenerateProperties(e).value.code;
      && StartsWith(code, "\n")
      && OccursAt("public " + GeneratePropertyType(p) + " " + MemberName(p) + " { get; set; }", code,
                  1 + JoinOffset(Codes(PropertyDeclarations(e.properties)), "\n", k))
  {
    var p := e.properties[k];
    var codes := Codes(PropertyDeclarations(e.properties));
    var decl := GenerateProperty(p).code;
    PropertyDeclarationText(p);
    PropertyDeclarationCode(e.properties, k, codes, decl);
    PropertiesPlacedAt(e, k, GenerateProperties(e).value.code, codes, decl);
  }

  lemma {:induction false} PropertyDeclarationCode(ps: seq<Property>, k: nat, codes: seq<string>, decl: string)
    requires forall i :: 0 <= i < |ps| ==> WellFormedProperty(ps[i])
    requires k < |ps| && codes == Codes(PropertyDeclarations(ps)) && decl == GenerateProperty(ps[k]).code
    ensures k < |codes| && codes[k] == decl
  {
  }

  /** `PropertiesPlaced` with the pieces passed in by name. */
  lemma {:induction false} PropertiesPlacedAt(e: Entity, k: nat, code: string, codes: seq<string>, decl: string)
    requires WellFormedEntity(e) && !e.isVirtual
    requires GenerateProperties(e).Some? && code == GenerateProperties(e).value.code
    requires codes == Codes(PropertyDeclarations(e.properties)) && k < |codes| && decl == codes[k]
    ensures StartsWith(code, "\n")
    ensures OccursAt(decl, code, 1 + JoinOffset(codes, "\n", k))
  {
    PropertiesShape(e);
    JoinPlacesPartsWithin(code, "\n", codes, "\n", "", k);
  }

  lemma {:induction false} PropertiesShape(e: Entity)
    requires WellFormedEntity(e) && !e.isVirtual
    ensures GenerateProperties(e).Some?
    ensures GenerateProperties(e).value.code == "\n" + Join(Codes(PropertyDeclarations(e.properties)), "\n") + ""
  {
  }

  // ---------------------------------------------------------------------------
  // ToString

  /**
   * `ToString` opens with the entity's cased name and `(`, prints field k at
   * its place after the fields before it (joined by a concatenated comma and
   * a line break), and closes the parenthesis after a continuation.
   */
  lemma {:induction false} ToStringPlacesFields(e: Entity, k: nat)
    requires WellFormedEntity(e) && !e.isVirtual && k < |e.properties|
    ensures GenerateToString(e).Some?
    ensures var code := GenerateToString(e).value.code;
      && StartsWith(code, ToStringOpen(e))
      && OccursAt(GeneratePropertyToString(e.properties[k]).code, code,
                  |ToStringOpen(e)| + JoinOffset(Codes(PropertyToStrings(e.properties)), FieldSeparator, k))
      && EndsWith(code, " + \n      \")\";\n  }\n")
  {
    var codes := Codes(PropertyToStrings(e.properties));
    var field := GeneratePropertyToString(e.properties[k]).code;
    ToStringFieldCode(e.properties, k, codes, field);
    ToStringCloseSpelled();
    ToStringShape(e);
    JoinPlacesPartsWithin(GenerateToString(e).value.code, ToStringOpen(e), codes, FieldSeparator,
                          ToStringClose(true), k);
  }

  lemma {:induction false} ToStringFieldCode(ps: seq<Property>, k: nat, codes: seq<string>, field: string)
    requires forall i :: 0 <= i < |ps| ==> WellFormedProperty(ps[i])
    requires k < |ps| && codes == Codes(PropertyToStrings(ps)) && field == GeneratePropertyToString(ps[k]).code
    ensures k < |codes| && codes[k] == field
  {
  }

  lemma ToStringCloseSpelled()
    ensures ToStringClose(true) == " + \n      \")\";\n  }\n"
  {
  }

  lemma {:induction false} ToStringShape(e: Entity)
    requires WellFormedEntity(e) && !e.isVirtual
    ensures GenerateToString(e).Some?
    ensures GenerateToString(e).value.code ==
      ToStringOpen(e) + Join(Codes(PropertyToStrings(e.properties)), FieldSeparator) +
      ToStringClose(|e.properties| > 0)
  {
  }

  /** Without properties, `ToString` prints the entity's name and an empty pair of parentheses. */
  lemma ToStringWithoutFields(e: Entity)
    requires WellFormedEntity(e) && !e.isVirtual && |e.properties| == 0
    ensures GenerateToString(e).Some?
    ensures GenerateToString(e).value.code ==
      "\n  public override string ToString() {\n    return\n      \"" + PascalCase(e.name) + "(\" +\n" +
      "      \")\";\n  }\n"
  {
    ToStringShape(e);
    var codes := Codes(PropertyToStrings(e.properties));
    assert codes == [];
    ToStringSpelled(e, ToStringOpen(e), ToStringClose(false));
  }

  lemma {:induction false} ToStringSpelled(e: Entity, open: string, close: string)
    requires Casable(e.name) && open == ToStringOpen(e) && close == ToStringClose(false)
    ensures open + "" + close ==
      "\n  public override string ToString() {\n    return\n      \"" + PascalCase(e.name) + "(\" +\n" +
      "      \")\";\n  }\n"
  {
  }

  // ---------------------------------------------------------------------------
  // Whole declarations

  /**
   * An entity's declaration is its declaration line, then (for a concrete
   * entity) its property declarations, its constructor when it has one and
   * its `ToString`, and finally the closing brace; an interface is its
   * declaration line and the brace alone.
   */
  lemma {:induction false} EntityLayout(e: Entity)
    requires WellFormedEntity(e)
    ensures e.isVirtual ==> GenerateEntity(e).code == GenerateSignature(e) + "}"
    ensures !e.isVirtual ==>
      GenerateEntity(e).code ==
        GenerateSignature(e) + GenerateProperties(e).value.code + Leading(GenerateConstructor(e), "") +
        GenerateToString(e).value.code + "}"
  {
    var sig, props, ctor, text := GenerateSignature(e), GenerateProperties(e), GenerateConstructor(e),
                                  GenerateToString(e);
    var footer := Plain(GenerateEntityFooter(e));
    var parts := EntityParts(e);
    assert parts == [Some(Plain(sig)), props, ctor, text, Some(footer)];
    var code := JoinEmitted(Present(parts), "").code;
    JoinFive(Some(Plain(sig)), props, ctor, text, footer, "", parts, code);
    LeadingUnseparated(Some(Plain(sig)));
    LeadingUnseparated(props);
    LeadingUnseparated(text);
    Regroup(Leading(Some(Plain(sig)), ""), Leading(props, ""), Leading(ctor, ""), Leading(text, ""), "}");
  }

  lemma LeadingUnseparated(part: Option<Emitted>)
    ensures part.Some? ==> Leading(part, "") == part.value.code
    ensures part.None? ==> Leading(part, "") == ""
  {
    if part.Some? {
      assert part.value.code + "" == part.value.code;
    }
  }

  lemma Regroup(a: string, b: string, c: string, d: string, f: string)
    ensures a + (b + (c + (d + f))) == a + b + c + d + f
  {
  }

  /** Five parts, the last present, joined after the absent ones are dropped. */
  lemma {:induction false} JoinFive(a: Option<Emitted>, b: Option<Emitted>, c: Option<Emitted>,
                                    d: Option<Emitted>, last: Emitted, sep: string,
                                    parts: seq<Option<Emitted>>, code: string)
    requires parts == [a, b, c, d, Some(last)] && code == JoinEmitted(Present(parts), sep).code
    ensures code == Leading(a, sep) + (Leading(b, sep) + (Leading(c, sep) + (Leading(d, sep) + last.code)))
  {
    var r3 := [d, Some(last)];
    var r2 := [c] + r3;
    var r1 := [b] + r2;
    assert parts == [a] + r1;
    JoinPresentStep(a, r1, sep);
    JoinPresentStep(b, r2, sep);
    JoinPresentStep(c, r3, sep);
    JoinPresentStep(d, [Some(last)], sep);
    JoinPresentLast(last, sep);
  }

  /** Entity k's declaration appears at its place, after those before it, each followed by a blank line. */
  lemma {:induction false} EntitiesPlaced(m: Model, k: nat)
    requires WellFormedModel(m) && k < |m.entities|
    ensures OccursAt(GenerateEntity(m.entities[k]).code, GenerateEntities(m).code,
                     JoinOffset(Codes(EntityDeclarations(m.entities)), "\n\n", k))
  {
    var codes := Codes(EntityDeclarations(m.entities));
    assert codes[k] == GenerateEntity(m.entities[k]).code;
    JoinPlacesParts(codes, "\n\n", k);
  }
}
