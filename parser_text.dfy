/**
 * The text of the `Parser` class and of the whole file: how a parsing
 * function is laid out, what it returns, where the parsing functions and
 * the regexes of the model's entities are, and the order of the file's parts.
 */
module ParserText {
  import opened Wrappers
  import opened Strings
  import opened Grammar
  import opened Naming
  import opened Emitter
  import opened EmitterProperties
  import opened DeclarationText

  // ---------------------------------------------------------------------------
  // One parsing function

  /**
   * A parsing function is its header (signature and locals), a blank line,
   * the code of the entity's parse action, a blank line, and its footer.
   */
  lemma {:induction false} EntityParserLayout(e: Entity)
    requires WellFormedEntity(e)
    ensures GenerateEntityParser(e).code ==
      GenerateEntityParserHeader(e) + "\n\n" + GenerateParseAction(e.parseAction) + "\n\n" +
      GenerateEntityParserFooter(e).code
  {
    JoinThree(Plain(GenerateEntityParserHeader(e)), Plain(GenerateParseAction(e.parseAction)),
              GenerateEntityParserFooter(e), "\n\n");
  }

  /** Three parts joined: each pair separated. */
  lemma {:induction false} JoinThree(a: Emitted, b: Emitted, c: Emitted, sep: string)
    ensures JoinEmitted([a, b, c], sep).code == a.code + sep + b.code + sep + c.code
  {
    var codes := Codes([a, b, c]);
    assert codes == [a.code, b.code, c.code];
    assert codes[1..] == [b.code, c.code];
    assert [b.code, c.code][1..] == [c.code];
    assert Join([b.code, c.code], sep) == b.code + sep + c.code;
    assert Join(codes, sep) == a.code + sep + (b.code + sep + c.code);
  }

  /**
   * The footer closes the attempt with the failure naming the entity, then
   * returns.
   */
  lemma {:induction false} ParserFooterText(e: Entity)
    requires WellFormedEntity(e)
    ensures var code := GenerateEntityParserFooter(e).code;
      && StartsWith(code, "}).OrThrow(\"Failed to parse " + PascalCase(e.name) + "\");\n")
      && EndsWith(code, GenerateEntityParserReturn(e).code)
  {
    FooterPieces(GenerateEntityParserFooter(e).code, PascalCase(e.name), GenerateEntityParserReturn(e).code);
  }

  lemma {:induction false} FooterPieces(code: string, name: string, ret: string)
    requires code == "})." + "OrThrow(\"Failed to parse " + name + "\");\n" + ret
    ensures StartsWith(code, "}).OrThrow(\"Failed to parse " + name + "\");\n")
    ensures EndsWith(code, ret)
  {
    assert "})." + "OrThrow(\"Failed to parse " == "}).OrThrow(\"Failed to parse ";
    Appended("}).OrThrow(\"Failed to parse " + name + "\");\n", ret);
  }

  /**
   * A virtual entity returns the local of its first property, or nothing
   * when it has none; a concrete one returns a new instance of its class.
   */
  lemma {:induction false} ParserReturnText(e: Entity)
    requires WellFormedEntity(e)
    ensures var code := GenerateEntityParserReturn(e).code;
      && (e.isVirtual && |e.properties| > 0 ==>
            code == "return " + GenerateLocalVariable(e.properties[0]) + ";\n}")
      && (e.isVirtual && |e.properties| == 0 ==> code == "return;")
      && (!e.isVirtual ==>
            StartsWith(code, "    return new " + PascalCase(e.name) + "()") && EndsWith(code, ";\n}"))
      && (!e.isVirtual && |e.properties| == 0 ==> code == "    return new " + PascalCase(e.name) + "();\n}")
  {
    var ps := e.properties;
    if !e.isVirtual {
      var code := GenerateRealEntityParserReturn(e).code;
      var fields := if |ps| > 0 then "{\n" + Join(Codes(InitializerLines(ps)), ",\n") + "\n" + "}" else "";
      ReturnShape(e);
      Pieces(ReturnNew(e), fields, ";\n}");
    }
  }

  lemma {:induction false} ReturnShape(e: Entity)
    requires WellFormedEntity(e)
    ensures var ps := e.properties;
      GenerateRealEntityParserReturn(e).code ==
        ReturnNew(e) +
        (if |ps| > 0 then "{\n" + Join(Codes(InitializerLines(ps)), ",\n") + "\n" + "}" else "") +
        ";\n}"
  {
  }

  /**
   * A concrete entity's new instance sets member k from the property's
   * local, at its place after the members before it, one per line, inside
   * an object initialiser.
   */
  lemma {:induction false} ReturnPlacesInitializers(e: Entity, k: nat)
    requires WellFormedEntity(e) && k < |e.properties|
    ensures var p := e.properties[k];
      var code := GenerateRealEntityParserReturn(e).code;
      && StartsWith(code, "    return new " + PascalCase(e.name) + "(){\n")
      && OccursAt("      " + MemberName(p) + " = " + GenerateLocalVariable(p), code,
                  |ReturnNew(e)| + 2 + JoinOffset(Codes(InitializerLines(e.properties)), ",\n", k))
      && EndsWith(code, "\n};\n}")
  {
    var p := e.properties[k];
    var codes := Codes(InitializerLines(e.properties));
    var line := InitializerLine(p).code;
    InitializerLineText(p);
    InitializerCode(e.properties, k, codes, line);
    ReturnShape(e);
    ReturnPieces(GenerateRealEntityParserReturn(e).code, PascalCase(e.name), ReturnNew(e), codes, k, line);
  }

  lemma {:induction false} InitializerCode(ps: seq<Property>, k: nat, codes: seq<string>, line: string)
    requires forall i :: 0 <= i < |ps| ==> WellFormedProperty(ps[i])
    requires k < |ps| && codes == Codes(InitializerLines(ps)) && line == InitializerLine(ps[k]).code
    ensures k < |codes| && codes[k] == line
  {
  }

  /** `ReturnPlacesInitializers` on the text of the return alone. */
  lemma {:induction false} ReturnPieces(code: string, name: string, start: string, codes: seq<string>, k: nat,
                                        line: string)
    requires start == "    return new " + name + "()" && k < |codes| && line == codes[k]
    requires code == start + (if |codes| > 0 then "{\n" + Join(codes, ",\n") + "\n" + "}" else "") + ";\n}"
    ensures StartsWith(code, "    return new " + name + "(){\n")
    ensures OccursAt(line, code, |start| + 2 + JoinOffset(codes, ",\n", k))
    ensures EndsWith(code, "\n};\n}")
  {
    var open := start + "{\n";
    var close := "\n" + "}" + ";\n}";
    assert code == open + Join(codes, ",\n") + close;
    JoinPlacesPartsWithin(code, open, codes, ",\n", close, k);
    assert close == "\n};\n}";
    assert open == "    return new " + name + "(){\n";
  }

  // ---------------------------------------------------------------------------
  // The Parser class

  /** The `Parser` class is its prologue, a blank line, the parsing functions, a blank line and its epilogue. */
  lemma {:induction false} ParserClassLayout(header: string, parsers: Emitted)
    ensures ParserClass(header, parsers).code == header + "\n\n" + parsers.code + "\n\n" + ParserFooter
  {
    JoinThree(Plain(header), parsers, Plain(ParserFooter), "\n\n");
  }

  /**
   * The `Parser` class is its prologue, the parsing functions and its
   * epilogue; the prologue names the root entity twice: as the type of
   * `AST` and in the call of its parsing function.
   */
  lemma {:induction false} ParsersLayout(m: Model)
    requires WellFormedModel(m)
    ensures var header := GenerateParserHeader(m);
      var root := PascalCase(m.rootName);
      && GenerateParsers(m).code == header + "\n\n" + GenerateEntityParsers(m).code + "\n\n" + ParserFooter
      && OccursAt(root, header, |ParserHeaderOpen|)
      && OccursAt(root, header, |ParserHeaderOpen| + |root| + |ParserHeaderMiddle|)
  {
    ParserClassLayout(GenerateParserHeader(m), GenerateEntityParsers(m));
    ParserHeaderRoot(PascalCase(m.rootName), GenerateParserHeader(m));
  }

  lemma {:induction false} ParserHeaderRoot(root: string, header: string)
    requires header == ParserHeaderOpen + root + ParserHeaderMiddle + root + ParserHeaderClose
    ensures OccursAt(root, header, |ParserHeaderOpen|)
    ensures OccursAt(root, header, |ParserHeaderOpen| + |root| + |ParserHeaderMiddle|)
  {
    SecondOccurrence(ParserHeaderOpen, root, ParserHeaderMiddle, ParserHeaderClose, header);
  }

  lemma {:induction false} SecondOccurrence(a: string, x: string, b: string, c: string, whole: string)
    requires whole == a + x + b + x + c
    ensures OccursAt(x, whole, |a|)
    ensures OccursAt(x, whole, |a| + |x| + |b|)
  {
    assert whole[|a|..|a| + |x|] == x;
    assert whole[|a| + |x| + |b|..|a| + |x| + |b| + |x|] == x;
  }

  // ---------------------------------------------------------------------------
  // Every entity is generated

  /**
   * Every entity of the model that is not a virtual pattern entity has its
   * parsing function among the parsing functions, at the place of its rank
   * among those entities.
   */
  lemma {:induction false} ParserFunctionGenerated(m: Model, i: nat)
    requires WellFormedModel(m) && i < |m.entities| && !m.entities[i].IsPatternLeaf()
    ensures exists k ::
      0 <= k < |ParserEntities(m)| && ParserEntities(m)[k] == m.entities[i] &&
      OccursAt(GenerateEntityParser(m.entities[i]).code, GenerateEntityParsers(m).code,
               JoinOffset(Codes(EntityParsers(m)), "\n\n", k))
  {
    var e := m.entities[i];
    ParserEntitiesExactly(m, e);
    var es := ParserEntities(m);
    var k :| 0 <= k < |es| && es[k] == e;
    EntityParsersPlaced(m, k);
  }

  /**
   * Every entity whose action is a pattern has its regex line in
   * `Extracting`, at the place of its rank among the pattern entities.
   */
  lemma {:induction false} RegexGenerated(m: Model, i: nat)
    requires WellFormedModel(m) && i < |m.entities| && m.entities[i].parseAction.ConsumePattern?
    ensures exists k ::
      0 <= k < |PatternEntities(m)| && PatternEntities(m)[k] == m.entities[i] &&
      OccursAt(ExtractorLine(m.entities[i]), GenerateExtracting(m),
               |ExtractingOpen| + JoinOffset(ExtractorLines(m), "\n", k))
  {
    var e := m.entities[i];
    PatternEntitiesExactly(m, e);
    var es := PatternEntities(m);
    var k :| 0 <= k < |es| && es[k] == e;
    ExtractingPlacesLines(m, k);
  }

  /**
   * A pattern that populates a property of its own entity consumes the
   * regex `Extracting` declares for that entity: the name it uses is the
   * name the regex line declares.
   */
  lemma {:induction false} PatternUsesOwnRegex(m: Model, i: nat)
    requires WellFormedModel(m) && i < |m.entities|
    requires var a := m.entities[i].parseAction;
      a.ConsumePattern? && a.property.Some? && a.property.value.entityName == m.entities[i].name
    ensures var e := m.entities[i];
      var regex := "  public static Regex " + PascalCase(e.name) + " = new Regex(@\"^";
      && OccursAt("Consume(Extracting." + PascalCase(e.name) + ");", GenerateParseAction(e.parseAction),
                  WrapShift(e.parseAction) + |GenerateAssignment(e.parseAction)|)
      && exists k :: 0 <= k < |PatternEntities(m)| && PatternEntities(m)[k] == e &&
           OccursAt(regex, GenerateExtracting(m), |ExtractingOpen| + JoinOffset(ExtractorLines(m), "\n", k))
  {
    var e := m.entities[i];
    PatternCallPlaced(e.parseAction, e.name);
    RegexDeclared(m, i);
  }

  /** The consumption of a pattern names the regex of its property's entity, after the assignment. */
  lemma {:induction false} PatternCallPlaced(a: ParseAction, name: string)
    requires a.ConsumePattern? && WellFormedAction(a) && a.property.value.entityName == name
    ensures Casable(name)
    ensures OccursAt("Consume(Extracting." + PascalCase(name) + ");", GenerateParseAction(a),
                     WrapShift(a) + |GenerateAssignment(a)|)
  {
    var call := "Consume(Extracting." + PascalCase(name) + ");";
    var code := GenerateConsumePattern(a);
    assert code == GenerateAssignment(a) + call;
    Appended(GenerateAssignment(a), call);
    assert OccursAt(call, code, |GenerateAssignment(a)|);
    WrapOptionalKeeps(a, code, call, |GenerateAssignment(a)|);
  }

  /** The opening of a pattern entity's regex line, naming it, is in `Extracting`. */
  lemma {:induction false} RegexDeclared(m: Model, i: nat)
    requires WellFormedModel(m) && i < |m.entities| && m.entities[i].parseAction.ConsumePattern?
    ensures var e := m.entities[i];
      var regex := "  public static Regex " + PascalCase(e.name) + " = new Regex(@\"^";
      exists k :: 0 <= k < |PatternEntities(m)| && PatternEntities(m)[k] == e &&
        OccursAt(regex, GenerateExtracting(m), |ExtractingOpen| + JoinOffset(ExtractorLines(m), "\n", k))
  {
    var e := m.entities[i];
    var regex := "  public static Regex " + PascalCase(e.name) + " = new Regex(@\"^";
    RegexGenerated(m, i);
    var k :| 0 <= k < |PatternEntities(m)| && PatternEntities(m)[k] == e &&
      OccursAt(ExtractorLine(e), GenerateExtracting(m), |ExtractingOpen| + JoinOffset(ExtractorLines(m), "\n", k));
    ExtractorLineLayout(e);
    Pieces(regex, EscapePattern(e.parseAction.pattern), "\");");
    OccursWithin(regex, ExtractorLine(e), GenerateExtracting(m), |ExtractingOpen| + JoinOffset(ExtractorLines(m), "\n", k));
  }

  /** A prefix of text that occurs somewhere occurs at the same place. */
  lemma OccursWithin(prefix: string, line: string, hay: string, offset: nat)
    requires StartsWith(line, prefix) && OccursAt(line, hay, offset)
    ensures OccursAt(prefix, hay, offset)
  {
    assert hay[offset..offset + |prefix|] == line[..|prefix|];
  }

  // ---------------------------------------------------------------------------
  // The whole file

  /**
   * The file is the provenance header when there is one, the `using`
   * references, the namespace opening when there is one, the entity
   * classes, the `Parser` class, the `Extracting` class and the namespace's
   * closing brace, each followed by a blank line; absent parts leave no gap.
   */
  lemma {:induction false} FileLayout(header: Option<string>, ns: Option<string>,
                                      entities: Emitted, parsers: Emitted, extracting: string)
    ensures FileText(header, ns, entities, parsers, extracting).code ==
      (if header.Some? then header.value + "\n\n" else "") +
      References + "\n\n" +
      (if ns.Some? then "namespace " + ns.value + " {" + "\n\n" else "") +
      entities.code + "\n\n" + parsers.code + "\n\n" + extracting + "\n\n" + GenerateFooter(ns)
  {
    var sep := "\n\n";
    var first, opening := Wrap(header), Wrap(GenerateNamespace(ns));
    var parts := FileParts(header, ns, entities, parsers, extracting);
    var code := FileText(header, ns, entities, parsers, extracting).code;
    FileShape(header, ns, entities, parsers, extracting);
    JoinSeven(first, Some(Plain(References)), opening, Some(entities), Some(parsers), Some(Plain(extracting)),
              Plain(GenerateFooter(ns)), sep, parts, code);
    LeadingWrap(header, sep);
    LeadingWrap(GenerateNamespace(ns), sep);
    NamespaceSpelled(ns, sep);
    LeadingPresent(Plain(References), sep);
    LeadingPresent(entities, sep);
    LeadingPresent(parsers, sep);
    LeadingPresent(Plain(extracting), sep);
    RegroupFile(Leading(first, sep), References, Leading(opening, sep), entities.code, parsers.code, extracting,
                GenerateFooter(ns), sep);
  }

  lemma {:induction false} FileShape(header: Option<string>, ns: Option<string>,
                                     entities: Emitted, parsers: Emitted, extracting: string)
    ensures FileParts(header, ns, entities, parsers, extracting) ==
      [Wrap(header), Some(Plain(References)), Wrap(GenerateNamespace(ns)),
       Some(entities), Some(parsers), Some(Plain(extracting)), Some(Plain(GenerateFooter(ns)))]
    ensures FileText(header, ns, entities, parsers, extracting).code ==
      JoinEmitted(Present(FileParts(header, ns, entities, parsers, extracting)), "\n\n").code
  {
  }

  lemma LeadingPresent(part: Emitted, sep: string)
    ensures Leading(Some(part), sep) == part.code + sep
  {
  }

  lemma RegroupFile(a: string, r: string, c: string, e: string, p: string, x: string, h: string, s: string)
    ensures a + ((r + s) + (c + ((e + s) + ((p + s) + ((x + s) + h))))) ==
      a + r + s + c + e + s + p + s + x + s + h
  {
  }

  lemma LeadingWrap(s: Option<string>, sep: string)
    ensures Leading(Wrap(s), sep) == if s.Some? then s.value + sep else ""
  {
  }

  lemma NamespaceSpelled(ns: Option<string>, sep: string)
    ensures (if GenerateNamespace(ns).Some? then GenerateNamespace(ns).value + sep else "") ==
      (if ns.Some? then "namespace " + ns.value + " {" + sep else "")
  {
  }

  /** Seven parts, the last present, joined after the absent ones are dropped. */
  lemma {:induction false} JoinSeven(a: Option<Emitted>, b: Option<Emitted>, c: Option<Emitted>,
                                     d: Option<Emitted>, f: Option<Emitted>, g: Option<Emitted>,
                                     last: Emitted, sep: string, parts: seq<Option<Emitted>>, code: string)
    requires parts == [a, b, c, d, f, g, Some(last)] && code == JoinEmitted(Present(parts), sep).code
    ensures code == Leading(a, sep) + (Leading(b, sep) + (Leading(c, sep) +
      (Leading(d, sep) + (Leading(f, sep) + (Leading(g, sep) + last.code)))))
  {
    var r5 := [g, Some(last)];
    var r4 := [f] + r5;
    var r3 := [d] + r4;
    var r2 := [c] + r3;
    var r1 := [b] + r2;
    assert parts == [a] + r1;
    JoinPresentStep(a, r1, sep);
    JoinPresentStep(b, r2, sep);
    JoinPresentStep(c, r3, sep);
    JoinPresentStep(d, r4, sep);
    JoinPresentStep(f, r5, sep);
    JoinPresentStep(g, [Some(last)], sep);
    JoinPresentLast(last, sep);
  }

  /**
   * The generated file: the header when provenance is requested, the
   * references, the namespace opening when one is set, the entity classes,
   * the `Parser` class, `Extracting` and the namespace's closing brace.
   */
  lemma {:induction false} GeneratedFileLayout(emitInfo: bool, sources: seq<string>, ns: Option<string>,
                                               m: Model, date: string, time: string)
    requires WellFormedModel(m)
    ensures var header := GenerateHeader(emitInfo, sources, date, time);
      GenerateFile(emitInfo, sources, ns, m, date, time).code ==
        (if emitInfo then header.value + "\n\n" else "") +
        References + "\n\n" +
        (if ns.Some? then "namespace " + ns.value + " {" + "\n\n" else "") +
        GenerateEntities(m).code + "\n\n" + GenerateParsers(m).code + "\n\n" + GenerateExtracting(m) +
        "\n\n" + GenerateFooter(ns)
  {
    var header := GenerateHeader(emitInfo, sources, date, time);
    assert header.Some? <==> emitInfo;
    FileLayout(header, ns, GenerateEntities(m), GenerateParsers(m), GenerateExtracting(m));
  }
}
