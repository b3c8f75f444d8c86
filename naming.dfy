/**
 * The naming normaliser of the C# emitter: identifier casing, the plural
 * suffix, local variable names and the renaming of self-named properties.
 */
module Naming {
  import opened Strings
  import opened Grammar

  /** Generated text together with the warnings issued while producing it. */
  datatype Emitted = Emitted(code: string, warnings: seq<string>)

  /**
   * A name PascalCase can handle: no dash-separated segment of it is empty
   * (the source takes `First()` of every segment, which throws on an empty one).
   */
  predicate Casable(text: string)
  {
    NonEmptyParts(Split(text, '-'))
  }

  predicate NonEmptyParts(parts: seq<string>)
  {
    forall i :: 0 <= i < |parts| ==> parts[i] != ""
  }

  /** One segment: its first character upper-cased, the rest lower-cased. */
  function Capitalize(segment: string): string
    requires segment != ""
  {
    [Upper(segment[0])] + LowerAll(segment)[1..]
  }

  function CapitalizeAll(parts: seq<string>): seq<string>
    requires NonEmptyParts(parts)
  {
    seq(|parts|, i requires 0 <= i < |parts| => Capitalize(parts[i]))
  }

  /** `PascalCase`: dashes removed, every segment capitalised. */
  function PascalCase(text: string): string
    requires Casable(text)
  {
    Concat(CapitalizeAll(Split(text, '-')))
  }

  /** `CamelCase`: PascalCase with its first character lower-cased. */
  function CamelCase(text: string): (r: string)
    requires Casable(text)
    ensures |r| == |PascalCase(text)| > 0 && |text| > 0
    ensures r[0] == Lower(text[0])
    ensures r[1..] == PascalCase(text)[1..]
  {
    PascalCaseStart(text);
    var x := PascalCase(text);
    [Lower(x[0])] + x[1..]
  }

  /** The suffix a plural property's name receives. */
  function PluralSuffix(property: Property): (r: string)
    ensures r == "" <==> !property.isPlural
    ensures r == "es" <==> property.isPlural && EndsWith(property.name, "x")
    ensures r == "s" <==> property.isPlural && !EndsWith(property.name, "x")
  {
    if !property.isPlural then ""
    else if EndsWith(property.name, "x") then "es"
    else "s"
  }

  /** Property names that would be C# keywords as locals, and their stand-ins. */
  const ReservedLocals: map<string, string> :=
    map["string" := "text", "int" := "number", "float" := "floating"]

  /**
   * The name of the local variable that collects a property's value while
   * its entity is parsed.
   */
  function GenerateLocalVariable(property: Property): (r: string)
    requires Casable(property.name)
    ensures property.name in ReservedLocals ==> r == ReservedLocals[property.name]
    ensures property.name !in ReservedLocals ==>
      r == CamelCase(property.name) + PluralSuffix(property)
    ensures r != "" && '-' !in r
  {
    if property.name == "string" then "text"
    else if property.name == "int" then "number"
    else if property.name == "float" then "floating"
    else
      assert property.name !in ReservedLocals;
      CamelCaseSuffixed(property);
      CamelCase(property.name + PluralSuffix(property))
  }

  /** The plural suffix is already lower-case, so camel-casing passes it through. */
  lemma {:induction false} CamelCaseSuffixed(property: Property)
    requires Casable(property.name)
    ensures Casable(property.name + PluralSuffix(property))
    ensures var r := CamelCase(property.name + PluralSuffix(property));
      r == CamelCase(property.name) + PluralSuffix(property) && r != "" && '-' !in r
  {
    var suffix := PluralSuffix(property);
    assert LowerAll(suffix) == suffix;
    CamelCaseAppend(property.name, suffix);
  }

  /**
   * The name of the member that holds a property. A property named like its
   * entity (a recursive rule such as `rule ::= x [ rule ]`) is renamed with a
   * `next-` prefix and one warning; any other keeps its name plus its plural
   * suffix.
   */
  function GeneratePropertyName(property: Property): (r: Emitted)
    requires Casable(property.name)
    ensures property.name == property.entityName ==>
      r.code == "next-" + property.name && r.warnings == ["rewriting property name: " + property.name]
    ensures property.name != property.entityName ==>
      r.code == property.name + PluralSuffix(property) && r.warnings == []
    ensures Casable(r.code)
  {
    if property.name == property.entityName then
      SplitNoSep("next", '-');
      PascalCaseDash("next", property.name);
      assert "next-" + property.name == "next" + "-" + property.name;
      Emitted("next-" + property.name, ["rewriting property name: " + property.name])
    else
      PascalCaseAppend(property.name, PluralSuffix(property));
      Emitted(property.name + PluralSuffix(property), [])
  }

  // Lemmas about casing

  lemma CapitalizeAllAppend(x: seq<string>, y: seq<string>)
    requires NonEmptyParts(x) && NonEmptyParts(y)
    ensures CapitalizeAll(x + y) == CapitalizeAll(x) + CapitalizeAll(y)
  {
  }

  /** A single dash-free segment is capitalised: upper-case head, lower-case tail. */
  lemma PascalCaseSegment(segment: string)
    requires segment != "" && '-' !in segment
    ensures Casable(segment)
    ensures PascalCase(segment) == [Upper(segment[0])] + LowerAll(segment[1..])
  {
    SplitNoSep(segment, '-');
    assert CapitalizeAll([segment]) == [Capitalize(segment)];
  }

  /**
   * Casing a dash-joined name cases both sides and drops the dash: together
   * with PascalCaseSegment this determines PascalCase on every casable name.
   */
  lemma PascalCaseDash(a: string, b: string)
    requires Casable(a) && Casable(b)
    ensures Casable(a + "-" + b)
    ensures PascalCase(a + "-" + b) == PascalCase(a) + PascalCase(b)
  {
    SplitAtSep(a, b, '-');
    var x, y := Split(a, '-'), Split(b, '-');
    CapitalizeAllAppend(x, y);
    ConcatAppend(CapitalizeAll(x), CapitalizeAll(y));
  }

  /** A casable name is not empty and does not start with a dash. */
  lemma CasableStart(text: string)
    requires Casable(text)
    ensures |text| > 0 && text[0] != '-'
  {
    assert Split(text, '-')[0] != "";
  }

  /** The cased name starts with the name's first character upper-cased. */
  lemma PascalCaseStart(text: string)
    requires Casable(text)
    ensures |text| > 0 && |PascalCase(text)| > 0 && PascalCase(text)[0] == Upper(text[0])
  {
    CasableStart(text);
    var parts := Split(text, '-');
    SplitHead(text, '-');
    var caps := CapitalizeAll(parts);
    assert caps == [caps[0]] + caps[1..];
    ConcatAppend([caps[0]], caps[1..]);
  }

  /** No dash survives casing. */
  lemma PascalCaseNoDash(text: string)
    requires Casable(text)
    ensures '-' !in PascalCase(text)
  {
    var parts := Split(text, '-');
    var caps := CapitalizeAll(parts);
    SplitPiecesFree(text, '-');
    forall i | 0 <= i < |caps|
      ensures '-' !in caps[i]
    {
      var low := LowerAll(parts[i]);
      assert forall k :: 0 <= k < |low| ==> low[k] != '-';
    }
    ConcatExcludes(caps, '-');
  }

  /** Appending dash-free text commutes with camel-casing, up to lower-casing the text. */
  lemma CamelCaseAppend(text: string, suffix: string)
    requires Casable(text) && '-' !in suffix
    ensures Casable(text + suffix)
    ensures CamelCase(text + suffix) == CamelCase(text) + LowerAll(suffix)
    ensures '-' !in CamelCase(text + suffix)
  {
    PascalCaseAppend(text, suffix);
    PascalCaseNoDash(text + suffix);
    var p := PascalCase(text);
    assert PascalCase(text + suffix) == p + LowerAll(suffix);
    assert (p + LowerAll(suffix))[1..] == p[1..] + LowerAll(suffix);
    assert (p + LowerAll(suffix))[0] == p[0];
    var c := CamelCase(text + suffix);
    assert forall k :: 1 <= k < |c| ==> c[k] == PascalCase(text + suffix)[k];
    assert PascalCase(text + suffix)[0] != '-';
  }

  lemma LowerAllAppend(a: string, b: string)
    ensures LowerAll(a + b) == LowerAll(a) + LowerAll(b)
  {
    assert forall k :: 0 <= k < |a + b| ==> LowerAll(a + b)[k] == (LowerAll(a) + LowerAll(b))[k];
  }

  lemma CapitalizeAppend(segment: string, suffix: string)
    requires segment != ""
    ensures Capitalize(segment + suffix) == Capitalize(segment) + LowerAll(suffix)
  {
    LowerAllAppend(segment, suffix);
    assert (segment + suffix)[0] == segment[0];
    assert (LowerAll(segment) + LowerAll(suffix))[1..] == LowerAll(segment)[1..] + LowerAll(suffix);
  }

  /**
   * Dash-free text appended to a name is lower-cased onto the end of its
   * cased form: this is how a plural suffix ends up in member names.
   */
  lemma PascalCaseAppend(text: string, suffix: string)
    requires Casable(text) && '-' !in suffix
    ensures Casable(text + suffix)
    ensures PascalCase(text + suffix) == PascalCase(text) + LowerAll(suffix)
  {
    SplitAppend(text, suffix, '-');
    var parts := Split(text, '-');
    var n := |parts|;
    var front, last := parts[..n - 1], parts[n - 1];
    var longer := front + [last + suffix];
    assert Split(text + suffix, '-') == longer;
    assert NonEmptyParts(longer) by {
      forall i | 0 <= i < |longer|
        ensures longer[i] != ""
      {
        if i < n - 1 {
          assert longer[i] == parts[i];
        }
      }
    }
    assert parts == front + [last];
    CapitalizeAllAppend(front, [last]);
    CapitalizeAllAppend(front, [last + suffix]);
    CapitalizeAppend(last, suffix);
    var caps := CapitalizeAll(front);
    assert CapitalizeAll([last + suffix]) == [Capitalize(last) + LowerAll(suffix)];
    assert CapitalizeAll([last]) == [Capitalize(last)];
    ConcatAppend(caps, [Capitalize(last) + LowerAll(suffix)]);
    ConcatAppend(caps, [Capitalize(last)]);
    calc {
      PascalCase(text + suffix);
      Concat(CapitalizeAll(longer));
      Concat(caps + [Capitalize(last) + LowerAll(suffix)]);
      Concat(caps) + Capitalize(last) + LowerAll(suffix);
      Concat(caps + [Capitalize(last)]) + LowerAll(suffix);
      { assert CapitalizeAll(parts) == caps + [Capitalize(last)]; }
      PascalCase(text) + LowerAll(suffix);
    }
  }
}
