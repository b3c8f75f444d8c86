# Human Parser Generator: the C# emitter and the `Parsable` scanner

The Human Parser Generator reads an EBNF-like grammar and builds a parser
model from it. The model holds entities, their properties, and one tree of
parse actions per entity. From that model the generator emits the C# source
of a recursive-descent parser. This project models two parts of it:

- **The C# emitter** (`generator/emitter.cs`, modules `Naming`, `Emitter`,
  `EmitterProperties`, `DeclarationText` and `ParserText`). It turns a grammar model into parser text:
  - entity classes, with their properties, list-initialising constructors
    and `ToString` overrides;
  - a `Parser` class with one parsing function per entity;
  - an `Extracting` class with one anchored regex per pattern entity.

  Each parse action (string, pattern, entity reference, sequence,
  alternation) becomes a piece of code built from the `Parse`/`Or`/`Maybe`/
  `Many` combinators. Identifiers are normalised: names are Pascal- or
  camel-cased, plural names get a suffix, locals that would be C# keywords
  get a stand-in, and a property named like its own rule is renamed with a
  warning.
- **The text cursor `Parsable`** (`example/parsable.cs`, module `Scanner`).
  Generated parsers consume their input through it. It holds an immutable
  text and a position. Every consumption first skips whitespace, then takes
  a literal or a regex match. Peeking and the context snippet used in error
  messages leave the position alone.

The emitter is modelled as total functions over datatypes (`Grammar`). The
one loop the emitter has, the accumulation of alternatives in
`GenerateConsumeAny`, is a method proved equal to the function that the pure
parts use. The emitter object `CSharp` and the cursor `Parsable` are classes
whose methods update their fields.

Each cursor operation is specified by a function of the text and the
position: `SkipFrom`, `LiteralStep` and `PatternStep`. The methods are proved
to move the position exactly as those functions say. The source throws a
`ParseException` where the model returns `Err`. Warnings that the emitter
writes to the console are returned with the text that caused them, as
`Emitted(code, warnings)`.

The files:
- `wrappers.dfy`: `Option` and `Result`.
- `strings.dfy`: the .NET string and LINQ operations used: `Join`, `Split`,
  `StartsWith`, `Replace`, ASCII casing and `Where`, with their lemmas.
- `grammar.dfy`: the grammar model.
- `naming.dfy`: the naming normaliser.
- `emitter.dfy`: the generators and the `CSharp` class.
- `emitter_properties.dfy`: what the emitted text is guaranteed to contain.
- `declaration_text.dfy`: the text of the entity classes and where each
  declaration sits.
- `parser_text.dfy`: the text of the parsing functions, the `Parser` class
  and the layout of the whole file.
- `parsable.dfy`: the `Parsable` cursor.

## Model

| member | source | states |
|---|---|---|
| Naming.CamelCase | generator/emitter.cs:440-443 | the result has the length of the Pascal-cased name; its first character is the name's first character lower-cased; its remaining characters are those of the Pascal-cased name |
| Naming.PascalCaseSegment | generator/emitter.cs:432-438 | a dash-free, non-empty segment is cased as its first character upper-cased followed by the rest lower-cased |
| Naming.PascalCaseDash | generator/emitter.cs:432-438 | casing `a-b` is casing `a` followed by casing `b`: the dash disappears and each side is cased independently |
| Naming.PascalCaseNoDash | generator/emitter.cs:432-438 | no `-` survives in a Pascal-cased name |
| Naming.PascalCaseStart | generator/emitter.cs:432-438 | a casable name is non-empty, and its cased form starts with its first character upper-cased |
| Naming.CasableStart | generator/emitter.cs:432-438 | a name whose every dash-separated segment is non-empty (so that `First()` cannot throw) is non-empty and does not start with a dash |
| Naming.PascalCaseAppend | generator/emitter.cs:432-438 | dash-free text appended to a name ends up lower-cased at the end of the cased name |
| Naming.CamelCaseAppend | generator/emitter.cs:440-443 | dash-free text appended to a name ends up lower-cased at the end of the camel-cased name, and the result has no dash |
| Naming.PluralSuffix | generator/emitter.cs:449-453 | `""` exactly when the property is not plural; `"es"` exactly when it is plural and its name ends in `x`; `"s"` exactly when it is plural and its name does not |
| Naming.GenerateLocalVariable | generator/emitter.cs:344-351 | `string`, `int` and `float` map to `text`, `number` and `floating` with no plural suffix; any other name becomes the camel-cased name followed by its lower-cased plural suffix; the result is non-empty and dash-free |
| Naming.GeneratePropertyName | generator/emitter.cs:422-428 | a property named like its entity becomes `next-` + its name, with exactly one warning naming it; any other keeps its name plus its plural suffix, with no warning; either way the result can be cased |
| DeclarationText.MemberNamed | generator/emitter.cs:422-438 | the member that holds a property is `Next` + its cased name when it is named like its entity, and otherwise its cased name followed by its plural suffix |
| DeclarationText.PluralMemberMayShareClassName | generator/emitter.cs:422-428 | the renaming compares the raw names before the suffix is added: a plural property whose entity is named like its plural (`item` in `items`) is not renamed and draws no warning, though its member is named like the entity's class |
| EmitterProperties.CasedStartsUpper | generator/emitter.cs:116-121 | a cased type name is non-empty and never starts with a lower-case letter |
| EmitterProperties.GenerateTypeBuiltins | generator/emitter.cs:116-121 | a missing type is `Object`; an entity's type maps to `string` exactly for `<string>` and to `bool` exactly for `<bool>`; any other type is its cased name; no generated type name holds a dash |
| EmitterProperties.PropertyTypeBool | generator/emitter.cs:123-131 | a plural property is typed `List<` + its cased type + `>`; a singular one takes the type of its `Type`; it is typed `bool` exactly when it is singular and its type is `<bool>` |
| EmitterProperties.LocalInitializerCases | generator/emitter.cs:228-234 | a local starts as `new` of its list type exactly when it is plural, as `false` exactly when it is a singular `<bool>`, and as `null` otherwise |
| EmitterProperties.VirtualSupersExactly | generator/emitter.cs:92-102 | the supers named on the declaration line are exactly the virtual supers of the entity |
| EmitterProperties.SignatureLayout | generator/emitter.cs:92-102 | the declaration starts with `public interface ` exactly when the entity is virtual (otherwise `public class `); the cased name follows the keyword; the line ends with ` {` |
| EmitterProperties.SignatureSupers | generator/emitter.cs:92-102 | the declaration line is the keyword, the cased name, then ` : ` and the cased names of the virtual supers joined by `, ` when there are any, then ` {` |
| EmitterProperties.PluralPropertiesExactly | generator/emitter.cs:133-144 | the constructor initialises exactly the plural properties of the entity |
| EmitterProperties.ConstructorPlacesLines | generator/emitter.cs:133-144 | a concrete entity with a plural property gets a constructor, which opens with `public` + the cased entity name + `() {`; the initialisation of its k-th plural property follows at its place, after those of the plural properties before it |
| Emitter.GenerateConstructor | generator/emitter.cs:133-144 | a constructor is emitted exactly for a concrete entity with a plural property; it is silent exactly when no plural property is named like its entity |
| Emitter.GenerateProperties | generator/emitter.cs:104-109 | property declarations are emitted exactly for concrete entities; they are silent exactly when no property is renamed |
| Emitter.GenerateProperty | generator/emitter.cs:111-114 | a property declaration warns exactly when the property is named like its entity |
| DeclarationText.PropertyDeclarationText | generator/emitter.cs:111-114 | a property is declared `public ` + its C# type + its member name + ` { get; set; }` |
| DeclarationText.PropertiesPlaced | generator/emitter.cs:104-109 | the declarations of a concrete entity start on a new line, and property k is declared at its place after the declarations before it, one per line |
| Emitter.GenerateToString | generator/emitter.cs:146-156 | a `ToString` override is emitted exactly for concrete entities; it is silent exactly when no property is renamed |
| DeclarationText.ToStringPlacesFields | generator/emitter.cs:146-156 | `ToString` opens with `return` and the cased entity name followed by `(`, prints field k at its place after the fields before it, separated by a concatenated comma, and ends by closing the parenthesis and the method |
| DeclarationText.ToStringWithoutFields | generator/emitter.cs:146-156 | an entity without properties prints its cased name and `()`: the whole method text is given |
| Emitter.GeneratePropertyToString | generator/emitter.cs:158-172 | a property's part of `ToString` warns exactly when the property is named like its entity |
| DeclarationText.PropertyToStringText | generator/emitter.cs:158-172 | a singular property prints as `Member=` and `this.Member`; a plural one as `Member=[`, its elements' strings joined by commas, and `]` |
| Emitter.GenerateEntity | generator/emitter.cs:80-90 | an entity's declaration is silent exactly when the entity does not rename a property |
| DeclarationText.EntityLayout | generator/emitter.cs:80-90 | an interface is its declaration line and a closing brace; a class is its declaration line, its property declarations, its constructor when it has one, its `ToString` and a closing brace |
| Emitter.GenerateEntities | generator/emitter.cs:74-78 | all declarations are silent exactly when no entity renames a property |
| DeclarationText.EntitiesPlaced | generator/emitter.cs:74-78 | the declaration of entity k appears at its place, after those before it, separated by blank lines |
| EmitterProperties.ParserHeaderPlacesLocals | generator/emitter.cs:224-239 | a parsing function opens with its signature (return type, `Parse` + cased name); the local of each property is then declared, in declaration order |
| Emitter.GenerateEntityParser | generator/emitter.cs:214-222 | a parsing function is silent exactly when its entity does not rename a property |
| ParserText.EntityParserLayout | generator/emitter.cs:214-222 | a parsing function is its header, a blank line, the code of its parse action, a blank line and its footer |
| Emitter.GenerateEntityParserFooter | generator/emitter.cs:353-357 | the closing of a parsing function is silent exactly when its entity does not rename a property |
| ParserText.ParserFooterText | generator/emitter.cs:353-357 | the footer starts by closing the attempt with `.OrThrow("Failed to parse ` + the cased entity name, and ends with the return statement |
| Emitter.GenerateEntityParserReturn | generator/emitter.cs:359-363 | the return statement is silent exactly when the entity does not rename a property |
| ParserText.ParserReturnText | generator/emitter.cs:359-385 | a virtual entity returns the local of its first property, or is `return;` without properties; a concrete one returns `new` + its cased name + `()`, and without properties that is the whole statement |
| Emitter.GenerateRealEntityParserReturn | generator/emitter.cs:365-377 | the construction of a concrete entity is silent exactly when none of its properties is named like it |
| Emitter.InitializerLine | generator/emitter.cs:365-377 | one field initialiser warns exactly when its property is named like its entity |
| DeclarationText.InitializerLineText | generator/emitter.cs:365-377 | member k of the new instance is set from the local of its property |
| ParserText.ReturnPlacesInitializers | generator/emitter.cs:365-377 | a concrete entity with properties returns `new` + its name + `(){`, the initialiser of property k at its place after those before it, one per line, then `};` and the closing brace |
| Emitter.ConstructorLine | generator/emitter.cs:133-144 | one list initialisation warns exactly when its property is named like its entity |
| DeclarationText.ConstructorLineText | generator/emitter.cs:133-144 | the constructor sets a plural property's member to a new `List<` + its cased type + `>` |
| Emitter.GenerateEntityParsers | generator/emitter.cs:206-212 | the parsing functions are silent exactly when no parser entity renames a property |
| Emitter.GenerateParsers | generator/emitter.cs:180-186 | the `Parser` class is silent exactly when its parsing functions are |
| Emitter.ParserClass | generator/emitter.cs:180-186 | fixed prologue and epilogue text adds no warning |
| ParserText.ParserClassLayout | generator/emitter.cs:180-186 | the `Parser` class is its prologue, a blank line, the parsing functions, a blank line and its epilogue |
| ParserText.ParsersLayout | generator/emitter.cs:180-205 | the `Parser` class of a model is its prologue, a blank line, the parsing functions, a blank line and its epilogue; the prologue names the cased root entity twice, as the type of `AST` and in the call of its parsing function, at fixed places |
| ParserText.ParserFunctionGenerated | generator/emitter.cs:206-222 | every entity that is not a virtual pattern entity has its parsing function among the parsing functions, at the place of its rank |
| EmitterProperties.EntityParsersPlaced | generator/emitter.cs:206-212 | the parsing function of the k-th parser entity appears among the parsing functions at its place in declaration order |
| EmitterProperties.ParserEntitiesExactly | generator/emitter.cs:206-212 | parsing functions are generated for exactly the entities that are not both virtual and pattern-consuming |
| EmitterProperties.PatternEntitiesExactly | generator/emitter.cs:389-401 | a regex is generated for exactly the entities whose parse action is a pattern |
| EmitterProperties.EveryEntityCovered | generator/emitter.cs:206-212 | every entity gets a parsing function or a regex; an entity without a parsing function is virtual |
| EmitterProperties.ExtractorLineLayout | generator/emitter.cs:389-401 | a regex line declares the cased entity name as a `^`-anchored verbatim regex; reading the literal back (every `""` as one `"`) gives the entity's pattern unchanged |
| EmitterProperties.ExtractingPlacesLines | generator/emitter.cs:389-401 | `Extracting` holds the regex line of the k-th pattern entity at its place in declaration order |
| ParserText.RegexGenerated | generator/emitter.cs:389-401 | every pattern entity has its regex line in `Extracting`, at the place of its rank among the pattern entities |
| EmitterProperties.WrapOptionalUnchanged | generator/emitter.cs:326-331 | wrapping leaves the code unchanged exactly for required actions and for string consumptions |
| EmitterProperties.WrapOptionalEncloses | generator/emitter.cs:326-331 | any other optional action's code is enclosed exactly between `Maybe( () => {` + newline and newline + `});` |
| EmitterProperties.WrapShift | generator/emitter.cs:326-331 | the wrapping moves the code exactly when it encloses it |
| EmitterProperties.WrapOptionalKeeps | generator/emitter.cs:326-331 | text inside the code stays in the wrapped code, shifted by the opening |
| EmitterProperties.ConsumeStringCode | generator/emitter.cs:258-263 | a string is consumed with `MaybeConsume` when optional and with `Consume` otherwise, behind its assignment, and is never wrapped |
| EmitterProperties.ConsumePatternCode | generator/emitter.cs:265-271 | a pattern is consumed by its assignment followed by `Consume(Extracting.` + the cased name of its property's entity + `);`, inside `Maybe` when optional |
| ParserText.PatternUsesOwnRegex | generator/emitter.cs:265-271 | a pattern that is its entity's whole parse action and fills a property of that entity names the regex that `Extracting` declares for that entity |
| EmitterProperties.AssignmentPresence | generator/emitter.cs:333-337 | an assignment prefix is emitted exactly when the action has a type and a property, and is then the property's local followed by ` = ` |
| EmitterProperties.ConsumeAllPlacesChildren | generator/emitter.cs:302-307 | in a sequence, the code of child k appears at its place after the code of the children before it, separated by `\n\n`, behind the `Maybe` opening when the sequence is optional |
| Emitter.GenerateConsumeAny | generator/emitter.cs:309-324 | the loop with its `first` flag yields exactly the alternatives' blocks in order followed by `.OrThrow` naming the label |
| Emitter.OptionBlocksSnoc | generator/emitter.cs:309-324 | appending an alternative adds its block, opening with `Parse` only when it is the very first |
| EmitterProperties.OptionBlocksIndexed | generator/emitter.cs:309-324 | the accumulated alternatives are the concatenation of the option blocks in declaration order |
| EmitterProperties.OptionBlockLayout | generator/emitter.cs:309-324 | a block opens with `Parse( () => { ` (first) or `.Or( () => { ` (later) followed by its option's code |
| EmitterProperties.ConsumeAnyLayout | generator/emitter.cs:309-324 | an alternation is the concatenation of its options' blocks followed by `.OrThrow`, so the text ends with `.OrThrow("Expected: ` + label |
| EmitterProperties.ConsumeAnyBlock | generator/emitter.cs:309-324 | of the n blocks only the first opens with `Parse(` and the other n-1 with `.Or(`; block k holds option k's code right after that opening |
| EmitterProperties.ConsumeAnyPlacesOptions | generator/emitter.cs:309-324 | the block of option k appears at its place, after the blocks before it |
| EmitterProperties.ConsumeAnyActionPlacesOptions | generator/emitter.cs:309-324 | the same holds in the code of an alternation action, behind the `Maybe` opening when it is optional |
| EmitterProperties.ConsumeEntityCode | generator/emitter.cs:273-283 | a required singular reference assigns the call's result; a plural one collects repeated results with `Many<type>(call)` into its local |
| EmitterProperties.ReferencesResolve | generator/emitter.cs:273-300 | a required singular reference to a virtual pattern entity emits exactly its assignment and `Consume(Extracting.X);`, and that entity has a regex; a required singular reference to any other entity emits exactly its assignment and `ParseX();`, and that entity has a parsing function |
| EmitterProperties.ReferencesResolveAll | generator/emitter.cs:241-300 | any reference, optional or plural too, holds its call right after the `Maybe` opening and the assignment or the `Many<type>(` collection: `Consume(Extracting.X)` for a virtual pattern entity, which has a regex; otherwise `ParseX` (called with `()` unless plural), and that entity has a parsing function |
| EmitterProperties.HeaderSources | generator/emitter.cs:43-57 | the provenance comment is emitted exactly when requested; it names a single source as `Source`, several as `Sources`, comma-separated |
| EmitterProperties.HeaderWithoutSources | generator/emitter.cs:43-57 | without grammar files the requested provenance comment is the banner with the date and time and nothing after it |
| Emitter.GenerateFile | generator/emitter.cs:27-41 | the generated file is silent exactly when no entity of the model renames a property |
| Emitter.FileText | generator/emitter.cs:27-41 | the fixed parts of the file (header, references, namespace, extracting, footer) add no warning |
| ParserText.FileLayout | generator/emitter.cs:27-41 | the file is the header when present, the references, the namespace opening when present, the entities, the `Parser` class, `Extracting` and the closing, separated by blank lines; absent parts leave no gap |
| ParserText.GeneratedFileLayout | generator/emitter.cs:27-41 | the same layout for the file generated from a model |
| Emitter.ParsersSilent | generator/emitter.cs:206-212 | a model whose entities rename no property yields parsing functions without warnings |
| Emitter.CSharp.constructor | generator/emitter.cs:14-20 | a new emitter has no model, no sources, no namespace, and emits no provenance comment |
| Emitter.CSharp.Generate | generator/emitter.cs:22-25 | the model is remembered and the emitter itself is returned, for chaining |
| Emitter.CSharp.ToString | generator/emitter.cs:27-41 | without a model the text is `// no model generated`; with a model without entities it is `// no entities generated`, whatever the model's root name; otherwise it is the generated file; it has no warnings exactly when there is no model or no entity renames a property |
| Scanner.Parsable.constructor | example/parsable.cs:36-38 | a new cursor is at position 0 over the given text |
| Scanner.Parsable.Head | example/parsable.cs:27-31 | the head is the part of the text after the position: the text is what was consumed followed by the head |
| Scanner.PeekAt | example/parsable.cs:77-79 | peeking returns the first min(amount, remaining) characters of the rest of the text |
| Scanner.Parsable.Peek | example/parsable.cs:77-79 | peeking returns min(amount, remaining) characters that start the head, without touching the position |
| Scanner.ContextAt | example/parsable.cs:40-44 | the snippet is the peeked text with every newline written as `\n`, followed by `[...]`: it holds no newline, ends with `[...]`, is one character longer per escaped newline, and equals the peeked text followed by `[...]` when that holds no newline |
| Scanner.Parsable.Context | example/parsable.cs:40-44 | the same for the 30 characters peeked at the cursor, without touching the position |
| Scanner.Parsable.GenerateParseException | example/parsable.cs:81-83 | the message is the given message followed by the context |
| Scanner.Parsable.GenerateParseExceptionWithInner | example/parsable.cs:85-87 | the message is the given message followed by the context and a newline |
| Scanner.Parsable.ConsumeAmount | example/parsable.cs:92-102 | the amount is clamped to what remains; the position advances by exactly the clamped amount; the consumed text is the text between the old and the new position; the position stays within the text |
| Scanner.SkipFrom | example/parsable.cs:34 | skipping never moves back or past the end, passes only whitespace, and stops at the end or at a non-whitespace character |
| Scanner.Parsable.SkipLeadingWhitespace | example/parsable.cs:47-51 | the loop stops where `SkipFrom` says: the position never decreases, only whitespace is passed, and it stops at the end or at a non-whitespace character |
| Scanner.LiteralStep | example/parsable.cs:54-63 | a literal consumption succeeds exactly when the text after the skipped whitespace starts with the literal; it then returns the literal and leaves the position after it; on failure the position stays after the skipped whitespace and is not restored |
| Scanner.Parsable.ConsumeLiteral | example/parsable.cs:54-63 | the method's result and new position are those `LiteralStep` gives for the old position |
| Scanner.PatternStep | example/parsable.cs:65-74 | on a match, the consumption returns group 1 and advances past the whole match; on no match it fails with the position after the skipped whitespace |
| Scanner.Parsable.ConsumePattern | example/parsable.cs:65-74 | the method's result and new position are those `PatternStep` gives for the old position |
| Scanner.SkipThroughWhitespace | example/parsable.cs:47-51 | skipping from anywhere inside a run of whitespace ends where the run ends |
| Scanner.SkipShifted | example/parsable.cs:47-51 | whitespace inserted before the cursor's next token shifts where skipping stops by exactly its length |
| Scanner.InsertedWhitespaceSkipped | example/parsable.cs:47-51 | after whitespace inserted at the cursor is skipped, the same remaining text is reached |
| Scanner.InsertedWhitespaceLiteral | example/parsable.cs:54-63 | whitespace inserted at the cursor does not change what a literal consumption returns, success or failure; it only shifts the position by its length |
| Scanner.InsertedWhitespacePattern | example/parsable.cs:65-74 | the same for a pattern consumption |

The generator functions `Emitter.GenerateParseAction`, `Emitter.GenerateConsumePattern`, `Emitter.GenerateConsumeEntity`, `Emitter.WrapOptional`, `Emitter.GenerateExtracting`, `Emitter.GenerateHeader` and `Naming.PascalCase` have no rows of their own. They are specified by the lemma rows above that cite the same source lines, for example `EmitterProperties.ConsumePatternCode`, `EmitterProperties.ConsumeEntityCode`, `EmitterProperties.WrapOptionalKeeps`, `ParserText.RegexGenerated`, `EmitterProperties.HeaderSources` and `Naming.PascalCaseDash`.

## Left out

- Regular expressions are not modelled as an engine. A `Regex` is its source text plus a function giving what it matches in a text (the whole match and group 1). The generated `Extracting` regexes are `^`-anchored. `Consume(Regex)` consumes the length of the whole match starting at the position, wherever in the head the match was found.
- Scanner.ConsumePattern, Scanner.PatternStep: they require the pattern to capture group 1 whenever it matches. In the source, a missing group 1 throws an exception that is not a `ParseException`, after the position has already advanced; that crash is not modelled.
- The whitespace regex `^\s` is modelled as the character class .NET gives `\s`: `[\f\n\r\t\v\x85\p{Z}]`.
- `DateTime.Now` is replaced by `date` and `time` parameters of `CSharp.ToString`. Their long date and time formats are not modelled.
- `Warn` and `Parsable.Log` write to the console. Warnings are returned as a list beside the generated text; logging is left out.
- `ToUpper`, `ToLower` and `StartsWith` are culture-sensitive in .NET. They are modelled as ASCII casing and ordinal comparison.
- `position` is a public settable field in the source, and so it is in the model: a `nat` field that any caller may assign. Only `Valid()`, which every cursor method requires, keeps it within the text; a caller that sets it past the end must not call the methods, where the source would throw from `Substring`. A negative position is not modelled. `Peek` with a negative amount throws in the source; the model's amount is a `nat`.
- Strings are sequences of `char`. .NET strings are UTF-16 code units and Dafny's `char` is a Unicode scalar value, so lengths, `Peek` amounts and positions count scalar values here; text outside the Basic Multilingual Plane is counted differently from the source.
- The inner exception passed to the two-argument `GenerateParseException` is dropped; only the message is modelled.
- The grammar model is an object graph with back-references. An entity reference holds only the fields the emitter reads: name, virtual flag, whether its action is a pattern, and type. A property's `Entity` is only its name.
- Inputs on which the source throws are excluded by `WellFormed` predicates rather than modelled as errors:
  - an empty dash-separated segment in a cased name, where `First()` throws;
  - a pattern or entity consumption without a property, which is a null dereference;
  - a plural property without a type, where `PascalCase(null)` throws.
- A null `Sources` list behaves like an empty one, as in the source.
- `GenerateParseAction`'s dispatch through a dictionary of action types, and its `NotImplementedException` for unknown kinds, are gone: the action kinds are a closed datatype.
- The fixed boilerplate (`using` lines, the `Parser` prologue and epilogue, the namespace line) is modelled as constant text. `ParserText.FileLayout` and `ParserText.GeneratedFileLayout` state the order of the parts of the file, and `ParserText.ParsersLayout` states where the prologue names the root entity; nothing else is stated about the constant text itself.
- What the generated parser does when it runs is not modelled: the `Parse`/`Or`/`Maybe`/`Many` combinators and `IsDone`. Only the text the emitter produces is modelled.
- The model builder that turns a grammar into the model is not part of this model.
- A virtual entity without properties ends its parsing function with `return;` and no closing brace. This follows the source as written.
- EmitterProperties.ConsumeAnyBlock: states that n-1 of the n blocks open with `.Or(`, not that `.Or(` occurs n-1 times in the whole text. Nested alternations inside the options' code contain `.Or(` as well.
- Emitter.WellFormedProperty: requires every property name to be casable on its own. The source cases a plural property's name only after its suffix is added, so a plural property named `items-` is accepted by the source (it cases `items-s`) and excluded here.
- DeclarationText.PluralMemberMayShareClassName: the source compares a property's name with its entity's name before adding the plural suffix, so a member may end up named like its class (C# rejects that). The model follows the source as written. No lemma claims that member names differ from class names.
- Emitter.GenerateProperties: its own contract states only its warnings. The text it produces is stated by `DeclarationText.PropertiesPlaced`.
- Emitter.GenerateProperty: its own contract states only its warnings. The text it produces is stated by `DeclarationText.PropertyDeclarationText`.
- Emitter.GenerateToString: its own contract states only its warnings. The text it produces is stated by `DeclarationText.ToStringPlacesFields` and `DeclarationText.ToStringWithoutFields`.
- Emitter.GeneratePropertyToString: its own contract states only its warnings. The text it produces is stated by `DeclarationText.PropertyToStringText`.
- Emitter.GenerateEntity: its own contract states only its warnings. The text it produces is stated by `DeclarationText.EntityLayout`.
- Emitter.GenerateEntities: its own contract states only its warnings. The text it produces is stated by `DeclarationText.EntitiesPlaced`.
- Emitter.GenerateEntityParser: its own contract states only its warnings. The text it produces is stated by `ParserText.EntityParserLayout`.
- Emitter.GenerateEntityParserFooter: its own contract states only its warnings. The text it produces is stated by `ParserText.ParserFooterText`.
- Emitter.GenerateEntityParserReturn: its own contract states only its warnings. The text it produces is stated by `ParserText.ParserReturnText`.
- Emitter.GenerateRealEntityParserReturn: its own contract states only its warnings. The text it produces is stated by `ParserText.ReturnPlacesInitializers`.
- Emitter.InitializerLine: its own contract states only its warnings. The text it produces is stated by `DeclarationText.InitializerLineText`.
- Emitter.ConstructorLine: its own contract states only its warnings. The text it produces is stated by `DeclarationText.ConstructorLineText`.
- Emitter.GenerateParsers: its own contract states only its warnings. The text it produces is stated by `ParserText.ParsersLayout`.
- Emitter.ParserClass: its own contract states only its warnings. The text it produces is stated by `ParserText.ParserClassLayout`.
- Emitter.GenerateFile: its own contract states only its warnings. The text it produces is stated by `ParserText.GeneratedFileLayout`.
- Emitter.FileText: its own contract states only its warnings. The text it produces is stated by `ParserText.FileLayout`.
- Emitter.GenerateConstructor: its own contract states only when a constructor is emitted and its warnings. The text it produces is stated by `EmitterProperties.ConstructorPlacesLines` and `DeclarationText.ConstructorLineText`.
- Emitter.GenerateEntityParsers: its own contract states only its warnings. The text it produces is stated by `EmitterProperties.EntityParsersPlaced` and `ParserText.ParserFunctionGenerated`.
- ParserText.PatternUsesOwnRegex: covers only an entity whose whole parse action is the pattern. A pattern nested in a sequence or an alternation still emits `Consume(Extracting.<Entity>)` (generator/emitter.cs:265-271), but `Extracting` declares regexes only for entities whose whole parse action is a pattern (generator/emitter.cs:387-401). No lemma claims that the regex named by a nested pattern is declared.
