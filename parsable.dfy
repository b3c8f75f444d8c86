/**
 * `Parsable`: the text cursor the generated parsers consume their input
 * through. It holds the text and a position into it; every consumption first
 * skips whitespace. Failures the source throws as `ParseException` are `Err`
 * results here.
 *
 * Each operation is specified by a function of the text and the position
 * (`SkipFrom`, `LiteralStep`, `PatternStep`); the methods of the class are
 * proved to move the position exactly as those functions say.
 */
module Scanner {
  import opened Wrappers
  import opened Strings

  /** .NET's `\s` (outside ECMAScript mode): `[\f\n\r\t\v\x85\p{Z}]`. */
  predicate IsWhitespace(c: char)
  {
    || '\t' <= c <= '\r'
    || c == ' ' || c == '\U{85}' || c == '\U{A0}' || c == '\U{1680}'
    || '\U{2000}' <= c <= '\U{200A}'
    || c == '\U{2028}' || c == '\U{2029}' || c == '\U{202F}' || c == '\U{205F}' || c == '\U{3000}'
  }

  predicate AllWhitespace(s: string)
  {
    forall i :: 0 <= i < |s| ==> IsWhitespace(s[i])
  }

  /** What a successful match reports: the whole match (group 0) and group 1, if it captured. */
  datatype RegexMatch = RegexMatch(value: string, group1: Option<string>)

  /** A compiled regular expression: its source text and what it matches in a given text. */
  datatype Regex = Regex(source: string, matcher: string -> Option<RegexMatch>)

  /**
   * A pattern `Consume(Regex)` can use: whenever it matches, group 1 has a
   * capture (the source reads `Groups[1].Captures[0]` unconditionally).
   */
  ghost predicate CapturesGroupOne(re: Regex)
  {
    forall rest :: re.matcher(rest).Some? ==> re.matcher(rest).value.group1.Some?
  }

  function Min(a: int, b: int): int
  {
    if a <= b then a else b
  }

  /** The position after skipping the whitespace that starts at `pos`. */
  function SkipFrom(text: string, pos: nat): (p: nat)
    requires pos <= |text|
    ensures pos <= p <= |text|
    ensures AllWhitespace(text[pos..p])
    ensures p == |text| || !IsWhitespace(text[p])
    decreases |text| - pos
  {
    if pos < |text| && IsWhitespace(text[pos]) then
      var p := SkipFrom(text, pos + 1);
      assert text[pos..p] == [text[pos]] + text[pos + 1..p];
      p
    else pos
  }

  /** `Peek(amount)` at `pos`: up to `amount` characters, fewer only at the end of the text. */
  function PeekAt(text: string, pos: nat, amount: nat): (r: string)
    requires pos <= |text|
    ensures |r| == Min(amount, |text| - pos)
    ensures StartsWith(text[pos..], r)
  {
    text[pos..][..Min(amount, |text[pos..]|)]
  }

  /**
   * `Context` at `pos`: the next 30 characters and a `[...]` marker, every
   * newline written as the two characters `\n`. Without newlines it is the
   * peeked text and the marker; each newline makes it one character longer.
   */
  function ContextAt(text: string, pos: nat): (r: string)
    requires pos <= |text|
    ensures '\n' !in r
    ensures EndsWith(r, "[...]")
    ensures var peeked := PeekAt(text, pos, 30);
      && r == ReplaceChar(peeked, '\n', "\\n") + "[...]"
      && |r| == |peeked| + Count(peeked, '\n') + |"[...]"|
      && ('\n' !in peeked ==> r == peeked + "[...]")
  {
    var peeked := PeekAt(text, pos, 30);
    EscapedContext(peeked, ReplaceChar(peeked + "[...]", '\n', "\\n"));
    ReplaceChar(peeked + "[...]", '\n', "\\n")
  }

  /** The peeked text and the marker with newlines escaped: what `ContextAt` promises of it. */
  lemma {:induction false} EscapedContext(peeked: string, r: string)
    requires r == ReplaceChar(peeked + "[...]", '\n', "\\n")
    ensures '\n' !in r && EndsWith(r, "[...]")
    ensures r == ReplaceChar(peeked, '\n', "\\n") + "[...]"
    ensures |r| == |peeked| + Count(peeked, '\n') + |"[...]"|
    ensures '\n' !in peeked ==> r == peeked + "[...]"
  {
    var marker, escape := "[...]", "\\n";
    assert '\n' !in marker by {
      assert marker == ['[', '.', '.', '.', ']'];
    }
    assert '\n' !in escape && |escape| == 2 by {
      assert escape == ['\\', 'n'];
    }
    Escaped(peeked, marker, '\n', escape, r);
  }

  /** Replacing a character by two others, in a text followed by a marker that does not hold it. */
  lemma {:induction false} Escaped(s: string, marker: string, c: char, with: string, r: string)
    requires c !in marker && c !in with && |with| == 2
    requires r == ReplaceChar(s + marker, c, with)
    ensures c !in r && EndsWith(r, marker)
    ensures r == ReplaceChar(s, c, with) + marker
    ensures |r| == |s| + Count(s, c) + |marker|
    ensures c !in s ==> r == s + marker
  {
    ReplaceCharAppend(s, marker, c, with);
    ReplaceCharAbsent(marker, c, with);
    ReplaceCharRemoves(s + marker, c, with);
    ReplaceCharLength(s, c, with);
    Appended(ReplaceChar(s, c, with), marker);
    if c !in s {
      ReplaceCharAbsent(s, c, with);
    }
  }

  /** The outcome of a consumption: its result and the position it leaves. */
  datatype Step = Step(result: Result<string>, position: nat)

  /** `Consume(string)` from `pos`. */
  function LiteralStep(text: string, pos: nat, literal: string): (r: Step)
    requires pos <= |text|
    ensures r.position <= |text|
    ensures r.result.Ok? <==> StartsWith(text[SkipFrom(text, pos)..], literal)
    ensures r.result.Ok? ==>
      r.result.value == literal && r.position == SkipFrom(text, pos) + |literal|
    ensures r.result.Err? ==> r.position == SkipFrom(text, pos)
  {
    var skipped := SkipFrom(text, pos);
    if !StartsWith(text[skipped..], literal) then
      Step(Err("could not consume '" + literal + "' at " + ContextAt(text, skipped)), skipped)
    else
      Step(Ok(text[skipped..skipped + |literal|]), skipped + |literal|)
  }

  /** `Consume(Regex)` from `pos`. */
  function PatternStep(text: string, pos: nat, re: Regex): (r: Step)
    requires pos <= |text|
    requires CapturesGroupOne(re)
    ensures r.position <= |text|
    ensures var skipped := SkipFrom(text, pos);
      match re.matcher(text[skipped..])
      case None =>
        r.result.Err? && r.position == skipped
      case Some(m) =>
        r.result == Ok(m.group1.value) &&
        r.position == skipped + Min(|m.value|, |text| - skipped)
  {
    var skipped := SkipFrom(text, pos);
    var m := re.matcher(text[skipped..]);
    if m.Some? then
      var length := |m.value.value|;
      Step(Ok(m.value.group1.value), skipped + Min(length, |text| - skipped))
    else
      Step(Err("could not consume pattern " + re.source + " at " + ContextAt(text, skipped)), skipped)
  }

  class Parsable {
    const text: string
    var position: nat

    ghost predicate Valid()
      reads this
    {
      position <= |text|
    }

    constructor (text: string)
      ensures this.text == text && position == 0 && Valid()
    {
      this.text := text;
      position := 0;
    }

    /** `head`: the part of the text that still needs parsing. */
    function Head(): (h: string)
      reads this
      requires Valid()
      ensures |h| == |text| - position
      ensures text == text[..position] + h
    {
      text[position..]
    }

    function Peek(amount: nat): (r: string)
      reads this
      requires Valid()
      ensures |r| == Min(amount, |text| - position)
      ensures StartsWith(Head(), r)
    {
      PeekAt(text, position, amount)
    }

    function Context(): (r: string)
      reads this
      requires Valid()
      ensures '\n' !in r && EndsWith(r, "[...]")
      ensures r == ReplaceChar(Peek(30), '\n', "\\n") + "[...]"
      ensures |r| == |Peek(30)| + Count(Peek(30), '\n') + |"[...]"|
      ensures '\n' !in Peek(30) ==> r == Peek(30) + "[...]"
    {
      ContextAt(text, position)
    }

    /** The message of `GenerateParseException(message)`. */
    function GenerateParseException(message: string): (r: string)
      reads this
      requires Valid()
      ensures StartsWith(r, message) && EndsWith(r, Context())
    {
      message + " at " + Context()
    }

    /** The message of `GenerateParseException(message, inner)`; the inner exception is dropped. */
    function GenerateParseExceptionWithInner(message: string): (r: string)
      reads this
      requires Valid()
      ensures StartsWith(r, message) && EndsWith(r, Context() + "\n")
    {
      message + "\n  Context:" + Context() + "\n"
    }

    /** `Consume(int)`: takes up to `amount` characters, fewer only at the end of the text. */
    method ConsumeAmount(amount: nat) returns (consumed: string)
      requires Valid()
      modifies this`position
      ensures Valid()
      ensures position == old(position) + Min(amount, |text| - old(position))
      ensures consumed == text[old(position)..position]
    {
      var n := Min(amount, |Head()|);
      consumed := Head()[..n];
      position := position + n;
    }

    method SkipLeadingWhitespace()
      requires Valid()
      modifies this`position
      ensures Valid()
      ensures position == SkipFrom(text, old(position))
      ensures old(position) <= position && AllWhitespace(text[old(position)..position])
      ensures position == |text| || !IsWhitespace(text[position])
    {
      while |Head()| > 0 && IsWhitespace(Head()[0])
        invariant Valid()
        invariant SkipFrom(text, old(position)) == SkipFrom(text, position)
        decreases |text| - position
      {
        var skipped := ConsumeAmount(1);
      }
    }

    /** `Consume(string)`: skips whitespace, then the literal or fails. */
    method ConsumeLiteral(literal: string) returns (r: Result<string>)
      requires Valid()
      modifies this`position
      ensures Valid()
      ensures Step(r, position) == LiteralStep(text, old(position), literal)
    {
      SkipLeadingWhitespace();
      if !StartsWith(Head(), literal) {
        return Err("could not consume '" + literal + "' at " + Context());
      }
      var consumed := ConsumeAmount(|literal|);
      return Ok(consumed);
    }

    /** `Consume(Regex)`: skips whitespace, consumes the whole match, returns group 1. */
    method ConsumePattern(re: Regex) returns (r: Result<string>)
      requires Valid() && CapturesGroupOne(re)
      modifies this`position
      ensures Valid()
      ensures Step(r, position) == PatternStep(text, old(position), re)
    {
      SkipLeadingWhitespace();
      var m := re.matcher(Head());
      if m.Some? {
        var length := |m.value.value|;
        var consumed := ConsumeAmount(length);
        return Ok(m.value.group1.value);
      }
      return Err("could not consume pattern " + re.source + " at " + Context());
    }
  }

  // Lemmas about the specification functions

  /** Skipping from anywhere inside a whitespace run ends where the run ends. */
  lemma {:induction false} SkipThroughWhitespace(text: string, p: nat, q: nat)
    requires p <= q <= |text| && AllWhitespace(text[p..q])
    ensures SkipFrom(text, p) == SkipFrom(text, q)
    decreases q - p
  {
    if p < q {
      assert IsWhitespace(text[p..q][0]);
      assert text[p + 1..q] == text[p..q][1..];
      SkipThroughWhitespace(text, p + 1, q);
    }
  }

  /**
   * Whitespace inserted at the cursor is skipped: scanning `pre + ws + post`
   * from the end of `pre` stops at the same place of `post` as scanning
   * `pre + post`.
   */
  lemma {:induction false} SkipShifted(pre: string, ws: string, post: string, j: nat)
    requires AllWhitespace(ws) && j <= |post|
    ensures SkipFrom(pre + ws + post, |pre| + |ws| + j) == |ws| + SkipFrom(pre + post, |pre| + j)
    decreases |post| - j
  {
    var t1, t2 := pre + ws + post, pre + post;
    if j < |post| {
      assert t1[|pre| + |ws| + j] == post[j] == t2[|pre| + j];
      if IsWhitespace(post[j]) {
        SkipShifted(pre, ws, post, j + 1);
      }
    }
  }

  /** Inserted whitespace only shifts where scanning stops. */
  lemma InsertedWhitespaceSkipped(pre: string, ws: string, post: string)
    requires AllWhitespace(ws)
    ensures SkipFrom(pre + ws + post, |pre|) == |ws| + SkipFrom(pre + post, |pre|)
    ensures (pre + ws + post)[SkipFrom(pre + ws + post, |pre|)..] == (pre + post)[SkipFrom(pre + post, |pre|)..]
  {
    var t1, t2 := pre + ws + post, pre + post;
    var a, b := |pre|, |pre| + |ws|;
    assert t1[a..b] == ws by {
      forall i | 0 <= i < |ws| ensures t1[a..b][i] == ws[i] {
        assert t1[a + i] == ws[i];
      }
    }
    SkipThroughWhitespace(t1, a, b);
    SkipShifted(pre, ws, post, 0);
    var s2 := SkipFrom(t2, a);
    var s1 := SkipFrom(t1, a);
    assert s1 == |ws| + s2;
    assert t1[s1..] == t2[s2..] by {
      assert |t1[s1..]| == |t2[s2..]|;
      forall i | 0 <= i < |t1[s1..]| ensures t1[s1..][i] == t2[s2..][i] {
        assert t1[s1 + i] == post[s2 - a + i] == t2[s2 + i];
      }
    }
  }

  /**
   * Whitespace between tokens does not change what a literal consumption
   * yields, success or failure: only the position moves with the inserted
   * whitespace.
   */
  lemma InsertedWhitespaceLiteral(pre: string, ws: string, post: string, literal: string)
    requires AllWhitespace(ws)
    ensures LiteralStep(pre + ws + post, |pre|, literal).result == LiteralStep(pre + post, |pre|, literal).result
    ensures LiteralStep(pre + ws + post, |pre|, literal).position ==
            |ws| + LiteralStep(pre + post, |pre|, literal).position
  {
    InsertedWhitespaceSkipped(pre, ws, post);
    var t1, t2 := pre + ws + post, pre + post;
    var s1, s2 := SkipFrom(t1, |pre|), SkipFrom(t2, |pre|);
    assert PeekAt(t1, s1, 30) == PeekAt(t2, s2, 30);
  }

  /** The same holds for a pattern consumption. */
  lemma InsertedWhitespacePattern(pre: string, ws: string, post: string, re: Regex)
    requires AllWhitespace(ws) && CapturesGroupOne(re)
    ensures PatternStep(pre + ws + post, |pre|, re).result == PatternStep(pre + post, |pre|, re).result
    ensures PatternStep(pre + ws + post, |pre|, re).position ==
            |ws| + PatternStep(pre + post, |pre|, re).position
  {
    InsertedWhitespaceSkipped(pre, ws, post);
    var t1, t2 := pre + ws + post, pre + post;
    var s1, s2 := SkipFrom(t1, |pre|), SkipFrom(t2, |pre|);
    assert PeekAt(t1, s1, 30) == PeekAt(t2, s2, 30);
  }
}
