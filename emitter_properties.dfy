/**
 * What the emitted parser text is guaranteed to contain: how types and
 * initial values are chosen, how optional actions are wrapped, the order of
 * the code of sequences and alternations, which entities get a parsing
 * function or a precompiled regex, and when warnings are issued.
 */
module EmitterProperties {
  import opened Wrappers
  import opened Strings
  import opened Grammar
  import opened Naming
  import opened Emitter

  // ---------------------------------------------------------------------------
  // Types and initial values

  /** A cased type name never starts with a lower-case letter. */
  lemma CasedStartsUpper(name: string)
    requires Casable(name)
    ensures |PascalCase(name)| > 0 && !('a' <= PascalCase(name)[0] <= 'z')
  {
    PascalCaseStart(name);
  }

  /**
   * A missing type is `Object`; `string` and `bool` come only from the
   * `<string>` and `<bool>` markers; any other type is its cased name;
   * every generated type name is free of dashes.
   */
  lemma GenerateTypeBuiltins(t: Option<string>)
    requires WellFormedType(t)
    ensures t.None? ==> GenerateType(t) == "Object"
    ensures t.Some? && t.value != "<string>" && t.value != "<bool>" ==> GenerateType(t) == PascalCase(t.value)
    ensures GenerateType(t) == "string" <==> t == Some("<string>")
    ensures GenerateType(t) == "bool" <==> t == Some("<bool>")
    ensures '-' !in GenerateType(t)
  {
    if t.Some? {
      CasedStartsUpper(t.value);
      PascalCaseNoDash(t.value);
    }
  }

  /**
   * A plural property is typed as a list of its cased type, a singular one
   * by its `Type`; only a singular `<bool>` property is typed `bool`.
   */
  lemma PropertyTypeBool(p: Property)
    requires WellFormedProperty(p)
    ensures p.isPlural ==> GeneratePropertyType(p) == "List<" + PascalCase(p.typeName.value) + ">"
    ensures !p.isPlural ==> GeneratePropertyType(p) == GenerateType(p.typeName)
    ensures GeneratePropertyType(p) == "bool" <==> !p.isPlural && p.typeName == Some("<bool>")
  {
    GenerateTypeBuiltins(p.typeName);
    if p.isPlural {
      assert GeneratePropertyType(p)[0] == 'L';
    }
  }

  /** A local starts as a new list if plural, `false` if boolean, `null` otherwise. */
  lemma LocalInitializerCases(p: Property)
    requires WellFormedProperty(p)
    ensures LocalInitializer(p) == " = new " + GeneratePropertyType(p) + "()" <==> p.isPlural
    ensures LocalInitializer(p) == " = false" <==> !p.isPlural && p.typeName == Some("<bool>")
    ensures LocalInitializer(p) == " = null" <==> !p.isPlural && p.typeName != Some("<bool>")
  {
    PropertyTypeBool(p);
    var plural := " = new " + GeneratePropertyType(p) + "()";
    assert plural[3] == 'n';
    assert " = false"[3] == 'f' && " = null"[3] == 'n' && plural[4] == 'e' && " = null"[4] == 'u';
  }

  // ---------------------------------------------------------------------------
  // Declarations

  /** An entity implements exactly its virtual supers. */
  lemma VirtualSupersExactly(e: Entity, s: EntityRef)
    ensures s in VirtualSupers(e) <==> s in e.supers && s.isVirtual
  {
    FilterMembers(e.supers, IsVirtualRef, s);
  }

  /**
   * A virtual entity is declared as an interface, a concrete one as a class;
   * either way the cased name follows the keyword and the line opens a block.
   */
  lemma {:induction false} SignatureLayout(e: Entity)
    requires WellFormedEntity(e)
    ensures var sig := GenerateSignature(e);
      && (StartsWith(sig, "public interface ") <==> e.isVirtual)
      && (!e.isVirtual ==> StartsWith(sig, "public class "))
      && OccursAt(PascalCase(e.name), sig, if e.isVirtual then |"public interface "| else |"public class "|)
      && EndsWith(sig, " {")
  {
    SignatureKeywordSpelled(e);
    SignaturePieces(e.isVirtual, SignatureKeyword(e), PascalCase(e.name), SignatureTail(e), GenerateSignature(e));
  }

  /** The keyword of a declaration, spelled out. */
  lemma {:induction false} SignatureKeywordSpelled(e: Entity)
    ensures SignatureKeyword(e) == if e.isVirtual then "public interface " else "public class "
  {
  }

  /** `SignatureLayout` for a declaration line given as its keyword, name and tail. */
  lemma {:induction false} SignaturePieces(isVirtual: bool, keyword: string, name: string, tail: string, sig: string)
    requires keyword == if isVirtual then "public interface " else "public class "
    requires sig == keyword + name + tail && EndsWith(tail, " {")
    ensures StartsWith(sig, "public interface ") <==> isVirtual
    ensures !isVirtual ==> StartsWith(sig, "public class ")
    ensures OccursAt(name, sig, if isVirtual then |"public interface "| else |"public class "|)
    ensures EndsWith(sig, " {")
  {
    Pieces(keyword, name, tail);
    assert sig[7] == keyword[7];
    assert sig[|sig| - 2..] == tail[|tail| - 2..];
  }

  /**
   * Without virtual supers the declaration line is the keyword, the cased
   * name and ` {`; otherwise the cased names of the virtual supers follow
   * ` : `, comma-separated in declaration order, before the ` {`.
   */
  lemma {:induction false} SignatureSupers(e: Entity)
    requires WellFormedEntity(e)
    ensures var keyword := if e.isVirtual then "public interface " else "public class ";
      && (|VirtualSupers(e)| == 0 ==> GenerateSignature(e) == keyword + PascalCase(e.name) + " {")
      && (|VirtualSupers(e)| > 0 ==>
            GenerateSignature(e) == keyword + PascalCase(e.name) + " : " + Join(SuperNames(e), ", ") + " {")
  {
    SignatureKeywordSpelled(e);
    var names := SuperNames(e);
    if |names| > 0 {
      Regroup(SignatureKeyword(e), PascalCase(e.name), " : ", Join(names, ", "), " {");
    }
  }

  lemma Regroup(a: string, b: string, c: string, d: string, f: string)
    ensures a + b + (c + d + f) == a + b + c + d + f
  {
  }

  /** The constructor initialises exactly the plural properties. */
  lemma PluralPropertiesExactly(e: Entity, p: Property)
    ensures p in PluralProperties(e) <==> p in e.properties && p.isPlural
  {
    FilterMembers(e.properties, IsPluralProperty, p);
  }

  /**
   * A concrete entity with a plural property gets a constructor, and the
   * initialisation of its k-th plural property appears in it in order.
   */
  lemma {:induction false} ConstructorPlacesLines(e: Entity, k: nat)
    requires WellFormedEntity(e) && !e.isVirtual && k < |PluralProperties(e)|
    ensures GenerateConstructor(e).Some?
    ensures var ps := PluralProperties(e);
      var code := GenerateConstructor(e).value.code;
      && StartsWith(code, ConstructorOpen(e))
      && OccursAt(ConstructorLine(ps[k]).code, code,
                  |ConstructorOpen(e)| + JoinOffset(Codes(ConstructorLines(ps)), "\n", k))
  {
    var ps := PluralProperties(e);
    var codes := Codes(ConstructorLines(ps));
    var line := ConstructorLine(ps[k]).code;
    ConstructorLineCode(ps, k, codes, line);
    ConstructorPlacesAt(e, k, GenerateConstructor(e).value.code, ConstructorOpen(e), codes, "\n", line);
  }

  /** The k-th constructor line's text is the k-th of the joined codes. */
  lemma {:induction false} ConstructorLineCode(ps: seq<Property>, k: nat, codes: seq<string>, line: string)
    requires forall i :: 0 <= i < |ps| ==> WellFormedProperty(ps[i])
    requires k < |ps| && codes == Codes(ConstructorLines(ps)) && line == ConstructorLine(ps[k]).code
    ensures k < |codes| && codes[k] == line
  {
  }

  /** `ConstructorPlacesLines` with the pieces of the constructor passed in by name. */
  lemma {:induction false} ConstructorPlacesAt(e: Entity, k: nat, code: string, open: string, codes: seq<string>,
                                               sep: string, line: string)
    requires WellFormedEntity(e) && !e.isVirtual && e.HasPluralProperty()
    requires GenerateConstructor(e).Some? && code == GenerateConstructor(e).value.code
    requires open == ConstructorOpen(e) && codes == Codes(ConstructorLines(PluralProperties(e))) && sep == "\n"
    requires k < |codes| && line == codes[k]
    ensures StartsWith(code, open)
    ensures OccursAt(line, code, |open| + JoinOffset(codes, sep, k))
  {
    ConstructorShape(e);
    JoinPlacesPartsWithin(code, open, codes, sep, "  }", k);
  }

  /** The constructor frames its newline-joined lines with its opening and `  }`. */
  lemma {:induction false} ConstructorShape(e: Entity)
    requires WellFormedEntity(e) && !e.isVirtual && e.HasPluralProperty()
    ensures GenerateConstructor(e).Some?
    ensures GenerateConstructor(e).value.code ==
      ConstructorOpen(e) + Join(Codes(ConstructorLines(PluralProperties(e))), "\n") + "  }"
  {
  }

  /**
   * A parsing function opens with its signature (`ParserFunctionOpen`), then
   * declares the local of each property in declaration order.
   */
  lemma {:induction false} ParserHeaderPlacesLocals(e: Entity, k: nat)
    requires WellFormedEntity(e) && k < |e.properties|
    ensures var header := GenerateEntityParserHeader(e);
      && StartsWith(header, ParserFunctionOpen(e))
      && OccursAt(LocalDeclaration(e.properties[k]), header,
                  |ParserFunctionOpen(e)| + JoinOffset(LocalDeclarations(e.properties), "\n", k))
  {
    var decls := LocalDeclarations(e.properties);
    var decl := LocalDeclaration(e.properties[k]);
    LocalDeclarationCode(e.properties, k, decls, decl);
    ParserHeaderPlacesAt(e, k, GenerateEntityParserHeader(e), ParserFunctionOpen(e), decls, "\n", decl);
  }

  /** The k-th local declaration's text is the k-th of the declarations joined into the header. */
  lemma {:induction false} LocalDeclarationCode(ps: seq<Property>, k: nat, decls: seq<string>, decl: string)
    requires forall i :: 0 <= i < |ps| ==> WellFormedProperty(ps[i])
    requires k < |ps| && decls == LocalDeclarations(ps) && decl == LocalDeclaration(ps[k])
    ensures k < |decls| && decls[k] == decl
  {
  }

  /** `ParserHeaderPlacesLocals` with the pieces of the header passed in by name. */
  lemma {:induction false} ParserHeaderPlacesAt(e: Entity, k: nat, header: string, open: string, decls: seq<string>,
                                                sep: string, decl: string)
    requires WellFormedEntity(e) && header == GenerateEntityParserHeader(e) && open == ParserFunctionOpen(e)
    requires decls == LocalDeclarations(e.properties) && sep == "\n" && k < |decls| && decl == decls[k]
    ensures StartsWith(header, open)
    ensures OccursAt(decl, header, |open| + JoinOffset(decls, sep, k))
  {
    ParserHeaderShape(e);
    JoinPlacesPartsWithin(header, open, decls, sep, ParserFunctionAttempt(e), k);
  }

  /** The header frames its newline-joined declarations with its opening and the attempt. */
  lemma {:induction false} ParserHeaderShape(e: Entity)
    requires WellFormedEntity(e)
    ensures GenerateEntityParserHeader(e) ==
      ParserFunctionOpen(e) + Join(LocalDeclarations(e.properties), "\n") + ParserFunctionAttempt(e)
  {
  }

  /**
   * The provenance comment is emitted only on request; it names its single
   * source as `Source`, several as `Sources`, comma-separated.
   */
  lemma HeaderSources(emitInfo: bool, sources: seq<string>, date: string, time: string)
    ensures var h := GenerateHeader(emitInfo, sources, date, time);
      && (h.Some? <==> emitInfo)
      && (emitInfo && |sources| == 1 ==> EndsWith(h.value, "\n// Source : " + sources[0]))
      && (emitInfo && |sources| > 1 ==> EndsWith(h.value, "\n// Sources : " + Join(sources, ", ")))
  {
    Appended(Provenance(date, time), SourcesLine(sources));
  }

  /** Without grammar files the provenance comment stops after the date and time. */
  lemma HeaderWithoutSources(sources: seq<string>, date: string, time: string)
    requires |sources| == 0
    ensures GenerateHeader(true, sources, date, time) == Some(Provenance(date, time))
  {
    var banner, none := Provenance(date, time), SourcesLine(sources);
    assert none == [];
    assert banner + none == banner;
  }

  // ---------------------------------------------------------------------------
  // Optional actions

  const MaybeOpen: string := "Maybe( () => {\n"
  const MaybeClose: string := "\n});"

  /** `WrapOptional` leaves the code alone exactly for required actions and optional strings. */
  lemma WrapOptionalUnchanged(a: ParseAction, code: string)
    ensures WrapOptional(a, code) == code <==> !a.isOptional || a.ConsumeString?
  {
    if a.isOptional && !a.ConsumeString? {
      assert |WrapOptional(a, code)| == |MaybeOpen| + |code| + |MaybeClose|;
    }
  }

  /** Any other optional action's code is enclosed exactly in `Maybe( () => {` ... `});`. */
  lemma WrapOptionalEncloses(a: ParseAction, code: string)
    requires a.isOptional && !a.ConsumeString?
    ensures var r := WrapOptional(a, code);
      StartsWith(r, MaybeOpen) && EndsWith(r, MaybeClose) &&
      r[|MaybeOpen|..|r| - |MaybeClose|] == code
  {
    var r := WrapOptional(a, code);
    assert r == MaybeOpen + code + MaybeClose;
    assert r[..|MaybeOpen|] == MaybeOpen;
    assert r[|r| - |MaybeClose|..] == MaybeClose;
    assert r[|MaybeOpen|..|r| - |MaybeClose|] == code;
  }

  /** How far `WrapOptional` moves the code it is given. */
  function WrapShift(a: ParseAction): (n: nat)
    ensures n == 0 <==> !a.isOptional || a.ConsumeString?
  {
    if a.isOptional && !a.ConsumeString? then |MaybeOpen| else 0
  }

  /** Text inside the wrapped code stays in place, shifted by the opening. */
  lemma WrapOptionalKeeps(a: ParseAction, code: string, part: string, offset: nat)
    requires OccursAt(part, code, offset)
    ensures OccursAt(part, WrapOptional(a, code), WrapShift(a) + offset)
  {
    if a.isOptional && !a.ConsumeString? {
      var r := WrapOptional(a, code);
      assert r == MaybeOpen + code + MaybeClose;
      assert r[|MaybeOpen| + offset..|MaybeOpen| + offset + |part|] == code[offset..offset + |part|];
    }
  }

  /**
   * A string is consumed with `Consume`, or with `MaybeConsume` when it is
   * optional, and is never wrapped.
   */
  lemma ConsumeStringCode(a: ParseAction)
    requires a.ConsumeString? && WellFormedAction(a)
    ensures GenerateParseAction(a) ==
      GenerateAssignment(a) + ((if a.isOptional then "MaybeConsume" else "Consume") + "(\"" + a.literal + "\");")
  {
    WrapOptionalUnchanged(a, GenerateConsumeString(a));
    ConsumeCallSpelled(a.isOptional, a.literal);
  }

  /**
   * A pattern is consumed through the precompiled regex named after the
   * entity its property belongs to; an optional one is wrapped in `Maybe`.
   */
  lemma ConsumePatternCode(a: ParseAction)
    requires a.ConsumePattern? && WellFormedAction(a)
    ensures var call := GenerateAssignment(a) + "Consume(Extracting." + PascalCase(a.property.value.entityName) + ");";
      && (!a.isOptional ==> GenerateParseAction(a) == call)
      && (a.isOptional ==> GenerateParseAction(a) == MaybeOpen + call + MaybeClose)
  {
    WrapOptionalUnchanged(a, GenerateConsumePattern(a));
  }

  lemma ConsumeCallSpelled(optional: bool, literal: string)
    ensures ConsumeCall(optional, literal) ==
      (if optional then "MaybeConsume" else "Consume") + "(\"" + literal + "\");"
  {
    if optional {
      assert "Maybe" + "Consume(\"" == "MaybeConsume" + "(\"";
    }
  }

  /** An assignment prefix is emitted exactly when the action has a type and a property. */
  lemma AssignmentPresence(a: ParseAction)
    requires a.property.Some? ==> WellFormedProperty(a.property.value)
    ensures GenerateAssignment(a) == "" <==> a.typeName.None? || a.property.None?
    ensures GenerateAssignment(a) != "" ==>
      GenerateAssignment(a) == GenerateLocalVariable(a.property.value) + " = "
  {
  }

  // ---------------------------------------------------------------------------
  // Sequences and alternations

  /** The code of an alternation before wrapping: one arm of `GenerateParseAction`, named for the proofs. */
  lemma ConsumeAnyUnfold(a: ParseAction)
    requires a.ConsumeAny? && WellFormedAction(a)
    ensures GenerateParseAction(a) == WrapOptional(a, ConsumeAnyCode(ChildCodes(a.actions), a.labelText))
  {
  }

  /** The code of an entity reference before wrapping: one arm of `GenerateParseAction`, named for the proofs. */
  lemma ConsumeEntityUnfold(a: ParseAction)
    requires a.ConsumeEntity? && WellFormedAction(a)
    ensures GenerateParseAction(a) == WrapOptional(a, GenerateConsumeEntity(a))
  {
  }

  /**
   * In a sequence, the code of child k appears in the generated text at its
   * place: after the code of the children before it, each followed by a
   * blank line.
   */
  lemma ConsumeAllPlacesChildren(a: ParseAction, k: nat)
    requires a.ConsumeAll? && WellFormedAction(a) && k < |a.actions|
    ensures var codes := ChildCodes(a.actions);
      && OccursAt(GenerateParseAction(a.actions[k]), GenerateParseAction(a),
                  WrapShift(a) + JoinOffset(codes, "\n\n", k))
      && (k + 1 < |codes| ==>
            JoinOffset(codes, "\n\n", k + 1) == JoinOffset(codes, "\n\n", k) + |codes[k]| + 2)
  {
    var codes := ChildCodes(a.actions);
    JoinPlacesParts(codes, "\n\n", k);
    WrapOptionalKeeps(a, GenerateConsumeAll(codes), codes[k], JoinOffset(codes, "\n\n", k));
  }

  /** The blocks of an alternation: block i opens with `Parse` if it is the very first, else `.Or`. */
  function OptionBlockSeq(codes: seq<string>, first: bool): (blocks: seq<string>)
    ensures |blocks| == |codes|
    ensures forall i :: 0 <= i < |codes| ==> blocks[i] == OptionBlock(first && i == 0, codes[i])
  {
    seq(|codes|, i requires 0 <= i < |codes| => OptionBlock(first && i == 0, codes[i]))
  }

  /** The accumulated alternatives are the blocks of the options, in declaration order. */
  lemma {:induction false} OptionBlocksIndexed(codes: seq<string>, first: bool)
    ensures OptionBlocks(codes, first) == Concat(OptionBlockSeq(codes, first))
  {
    if |codes| > 0 {
      OptionBlocksIndexed(codes[1..], false);
      var head := OptionBlock(first, codes[0]);
      var blocks := OptionBlockSeq(codes, first);
      assert blocks == [head] + OptionBlockSeq(codes[1..], false);
      ConcatAppend([head], OptionBlockSeq(codes[1..], false));
    }
  }

  /** One alternative: its opening, then its option's code. */
  lemma OptionBlockLayout(first: bool, code: string)
    ensures var open := if first then "Parse( () => { \n" else ".Or( () => { \n";
      StartsWith(OptionBlock(first, code), open) &&
      OccursAt(code, OptionBlock(first, code), |open|)
  {
    var open := if first then "Parse( () => { \n" else ".Or( () => { \n";
    var block := OptionBlock(first, code);
    assert block == open + code + "\n" + "})\n";
    assert block[..|open|] == open;
    assert block[|open|..|open| + |code|] == code;
  }

  /**
   * An alternation is the blocks of its options followed by `.OrThrow`
   * naming the label.
   */
  lemma ConsumeAnyLayout(codes: seq<string>, labelText: string)
    ensures ConsumeAnyCode(codes, labelText) == Concat(OptionBlockSeq(codes, true)) + OrThrow(labelText)
    ensures EndsWith(ConsumeAnyCode(codes, labelText), ".OrThrow(\"Expected: " + labelText + "\");\n ")
  {
    OptionBlocksIndexed(codes, true);
    Appended(OptionBlocks(codes, true), OrThrow(labelText));
  }

  /**
   * Of the n blocks of an alternation only the first opens with `Parse(`,
   * the other n-1 with `.Or(`; block k holds the code of option k.
   */
  lemma ConsumeAnyBlock(codes: seq<string>, k: nat)
    requires k < |codes|
    ensures var block := OptionBlockSeq(codes, true)[k];
      var open := if k == 0 then "Parse( () => { \n" else ".Or( () => { \n";
      StartsWith(block, open) && OccursAt(codes[k], block, |open|)
  {
    OptionBlockLayout(k == 0, codes[k]);
  }

  /** In an alternation the blocks of the options appear in declaration order. */
  lemma {:induction false} ConsumeAnyPlacesOptions(codes: seq<string>, labelText: string, k: nat)
    requires k < |codes|
    ensures var blocks := OptionBlockSeq(codes, true);
      && OccursAt(blocks[k], ConsumeAnyCode(codes, labelText), JoinOffset(blocks, "", k))
      && (k + 1 < |blocks| ==> JoinOffset(blocks, "", k + 1) == JoinOffset(blocks, "", k) + |blocks[k]|)
  {
    var blocks := OptionBlockSeq(codes, true);
    ConsumeAnyShape(codes, labelText);
    JoinPlacesParts(blocks, "", k);
    JoinPlacesPartsWithin(ConsumeAnyCode(codes, labelText), "", blocks, "", OrThrow(labelText), k);
  }

  /** An alternation is its blocks, joined with nothing between them, framed by `.OrThrow`. */
  lemma {:induction false} ConsumeAnyShape(codes: seq<string>, labelText: string)
    ensures ConsumeAnyCode(codes, labelText) == "" + Join(OptionBlockSeq(codes, true), "") + OrThrow(labelText)
  {
    OptionBlocksIndexed(codes, true);
    assert "" + Join(OptionBlockSeq(codes, true), "") == Join(OptionBlockSeq(codes, true), "");
  }

  /** The same holds in the code of a ConsumeAny action, behind the `Maybe` opening if it is optional. */
  lemma ConsumeAnyActionPlacesOptions(a: ParseAction, k: nat)
    requires a.ConsumeAny? && WellFormedAction(a) && k < |a.actions|
    ensures var blocks := OptionBlockSeq(ChildCodes(a.actions), true);
      OccursAt(blocks[k], GenerateParseAction(a), WrapShift(a) + JoinOffset(blocks, "", k))
  {
    var codes := ChildCodes(a.actions);
    var blocks := OptionBlockSeq(codes, true);
    ConsumeAnyPlacesOptions(codes, a.labelText, k);
    ConsumeAnyUnfold(a);
    WrapOptionalKeeps(a, ConsumeAnyCode(codes, a.labelText), blocks[k], JoinOffset(blocks, "", k));
  }

  // ---------------------------------------------------------------------------
  // Entity references

  /** The call that consumes a referenced entity: its regex when it is a virtual pattern entity. */
  function EntityCall(r: EntityRef, execute: bool): string
    requires Casable(r.name)
  {
    if r.isVirtual && r.isExtractor then "Consume(Extracting." + PascalCase(r.name) + ")"
    else "Parse" + PascalCase(r.name) + (if execute then "()" else "")
  }

  /** `GenerateConsumeSingleEntity` regrouped around `EntityCall`, for the proofs. */
  lemma ConsumeSingleEntityCall(a: ParseAction, withoutAssignment: bool, withoutExecution: bool)
    requires a.ConsumeEntity? && WellFormedAction(a)
    ensures GenerateConsumeSingleEntity(a, withoutAssignment, withoutExecution) ==
      (if withoutAssignment then "" else GenerateAssignment(a)) + EntityCall(a.entity, !withoutExecution)
  {
    var asg := if withoutAssignment then "" else GenerateAssignment(a);
    var x := PascalCase(a.entity.name);
    if a.entity.isVirtual && a.entity.isExtractor {
      assert asg + "Consume(Extracting." + x + ")" == asg + ("Consume(Extracting." + x + ")");
    } else {
      var tail := if withoutExecution then "" else "()";
      assert asg + "Parse" + x + tail == asg + ("Parse" + x + tail);
    }
  }

  /**
   * A required reference to an entity: a virtual pattern entity is consumed
   * through its precompiled regex, any other through its parsing function;
   * a plural property collects repeated results with `Many`.
   */
  lemma ConsumeEntityCode(a: ParseAction)
    requires a.ConsumeEntity? && WellFormedAction(a) && !a.isOptional
    ensures !a.property.value.isPlural ==>
      GenerateParseAction(a) == GenerateAssignment(a) + EntityCall(a.entity, true) + ";"
    ensures a.property.value.isPlural ==>
      GenerateParseAction(a) == GenerateLocalVariable(a.property.value) + " = Many<" +
        GenerateType(a.entity.typeName) + ">(" + EntityCall(a.entity, false) + ");"
  {
    ConsumeEntityUnfold(a);
    ConsumeSingleEntityCall(a, a.property.value.isPlural, a.property.value.isPlural);
  }

  /**
   * A reference to an entity of the model resolves to something the
   * emitter generates: the regex of a virtual pattern entity, or the
   * parsing function of any other entity.
   */
  lemma ReferencesResolve(m: Model, e: Entity, a: ParseAction)
    requires WellFormedModel(m) && e in m.entities
    requires a.ConsumeEntity? && WellFormedAction(a) && !a.isOptional && !a.property.value.isPlural
    requires a.entity == e.Ref()
    ensures e.IsPatternLeaf() ==>
      GenerateParseAction(a) == GenerateAssignment(a) + "Consume(Extracting." + PascalCase(e.name) + ")" + ";" &&
      e in PatternEntities(m)
    ensures !e.IsPatternLeaf() ==>
      GenerateParseAction(a) == GenerateAssignment(a) + "Parse" + PascalCase(e.name) + "()" + ";" &&
      e in ParserEntities(m)
  {
    ConsumeEntityCode(a);
    ParserEntitiesExactly(m, e);
    PatternEntitiesExactly(m, e);
  }

  /**
   * Any reference to an entity of the model, optional or plural too, holds
   * a call of something the emitter generates, right after the `Maybe`
   * opening and the assignment (or the `Many<type>(` collection): the
   * regex of a virtual pattern entity, or the parsing function of any other
   * entity, which a plural reference passes uncalled.
   */
  lemma ReferencesResolveAll(m: Model, e: Entity, a: ParseAction)
    requires WellFormedModel(m) && e in m.entities
    requires a.ConsumeEntity? && WellFormedAction(a) && a.entity == e.Ref()
    ensures var plural := a.property.value.isPlural;
      var offset := WrapShift(a) + |ReferencePrefix(a)|;
      && (e.IsPatternLeaf() ==>
            OccursAt("Consume(Extracting." + PascalCase(e.name) + ")", GenerateParseAction(a), offset) &&
            e in PatternEntities(m))
      && (!e.IsPatternLeaf() ==>
            OccursAt("Parse" + PascalCase(e.name) + (if plural then "" else "()"), GenerateParseAction(a), offset) &&
            e in ParserEntities(m))
  {
    ReferenceCallPlaced(a);
    ParserEntitiesExactly(m, e);
    PatternEntitiesExactly(m, e);
  }

  /** What an entity reference emits before its call. */
  function ReferencePrefix(a: ParseAction): string
    requires a.ConsumeEntity? && WellFormedAction(a)
  {
    if a.property.value.isPlural then
      GenerateLocalVariable(a.property.value) + " = Many<" + GenerateType(a.entity.typeName) + ">("
    else GenerateAssignment(a)
  }

  /** The call of a referenced entity sits after the wrapping and the prefix. */
  lemma {:induction false} ReferenceCallPlaced(a: ParseAction)
    requires a.ConsumeEntity? && WellFormedAction(a)
    ensures OccursAt(EntityCall(a.entity, !a.property.value.isPlural), GenerateParseAction(a),
                     WrapShift(a) + |ReferencePrefix(a)|)
  {
    var call := EntityCall(a.entity, !a.property.value.isPlural);
    var before := ReferencePrefix(a);
    var code := GenerateConsumeEntity(a);
    var tail := ReferenceCode(a);
    CallAfterPrefix(before, call, tail, code);
    ConsumeEntityUnfold(a);
    WrapOptionalKeeps(a, code, call, |before|);
  }

  /** An entity reference's code is its prefix, its call and a closing; the closing is returned. */
  lemma {:induction false} ReferenceCode(a: ParseAction) returns (tail: string)
    requires a.ConsumeEntity? && WellFormedAction(a)
    ensures GenerateConsumeEntity(a) ==
      ReferencePrefix(a) + (EntityCall(a.entity, !a.property.value.isPlural) + tail)
  {
    var plural := a.property.value.isPlural;
    ConsumeSingleEntityCall(a, plural, plural);
    var call := EntityCall(a.entity, !plural);
    if plural {
      tail := ");";
      var before := ReferencePrefix(a);
      assert GenerateConsumeSingleEntity(a, true, true) == call;
      assert GenerateConsumeEntity(a) == before + call + tail;
    } else {
      tail := ";";
      assert GenerateConsumeSingleEntity(a, false, false) == GenerateAssignment(a) + call;
    }
  }

  lemma CallAfterPrefix(before: string, call: string, tail: string, code: string)
    requires code == before + (call + tail)
    ensures OccursAt(call, code, |before|)
  {
    OccursFirst(call, tail);
    OccursShifted(call, before, call + tail, 0);
  }

  // ---------------------------------------------------------------------------
  // Which entities get a parsing function or a regex

  /** Parsing functions are generated for exactly the entities that are not virtual pattern entities. */
  lemma ParserEntitiesExactly(m: Model, e: Entity)
    ensures e in ParserEntities(m) <==>
      e in m.entities && !(e.isVirtual && e.parseAction.ConsumePattern?)
  {
    FilterMembers(m.entities, IsNotPatternLeaf, e);
  }

  /** A regex is generated for exactly the entities whose action is a pattern. */
  lemma PatternEntitiesExactly(m: Model, e: Entity)
    ensures e in PatternEntities(m) <==> e in m.entities && e.parseAction.ConsumePattern?
  {
    FilterMembers(m.entities, IsExtractorEntity, e);
  }

  /** Every entity is covered: by a parsing function, by a regex, or by both. */
  lemma EveryEntityCovered(m: Model, e: Entity)
    requires e in m.entities
    ensures e in ParserEntities(m) || e in PatternEntities(m)
    ensures e !in ParserEntities(m) ==> e.isVirtual
  {
    ParserEntitiesExactly(m, e);
    PatternEntitiesExactly(m, e);
  }

  /** The parsing function of parser entity k appears in order among the parsing functions. */
  lemma EntityParsersPlaced(m: Model, k: nat)
    requires WellFormedModel(m) && k < |ParserEntities(m)|
    ensures var codes := Codes(EntityParsers(m));
      OccursAt(GenerateEntityParser(ParserEntities(m)[k]).code, GenerateEntityParsers(m).code,
               JoinOffset(codes, "\n\n", k))
  {
    JoinPlacesParts(Codes(EntityParsers(m)), "\n\n", k);
  }

  /** The regex of a pattern entity: anchored with `^`, its pattern read back unchanged from the verbatim literal. */
  lemma ExtractorLineLayout(e: Entity)
    requires Casable(e.name) && e.parseAction.ConsumePattern?
    ensures var open := "  public static Regex " + PascalCase(e.name) + " = new Regex(@\"^";
      var escaped := EscapePattern(e.parseAction.pattern);
      && ExtractorLine(e) == open + escaped + "\");"
      && UndoubleQuotes(escaped) == e.parseAction.pattern
  {
    UndoubleDoubled(e.parseAction.pattern);
  }

  /** `Extracting` holds the regex line of pattern entity k, in declaration order. */
  lemma {:induction false} ExtractingPlacesLines(m: Model, k: nat)
    requires WellFormedModel(m) && k < |PatternEntities(m)|
    ensures OccursAt(ExtractorLines(m)[k], GenerateExtracting(m),
                     |ExtractingOpen| + JoinOffset(ExtractorLines(m), "\n", k))
  {
    JoinPlacesPartsFramed(ExtractingOpen, ExtractorLines(m), "\n", ExtractingClose, k);
  }
}
