/**
 * The handful of .NET string and LINQ operations the emitter and the scanner
 * rely on, written out over `seq<char>` and `seq<T>`: `string.Join`,
 * `string.Split(char)`, `StartsWith`/`EndsWith`, `Replace`, ASCII casing and
 * `Where`.
 */
module Strings {

  /** `string.Join(sep, parts)`: the parts in order with `sep` between neighbours. */
  function Join(parts: seq<string>, sep: string): string
  {
    if |parts| == 0 then ""
    else if |parts| == 1 then parts[0]
    else parts[0] + sep + Join(parts[1..], sep)
  }

  /** `string.Join("", parts)`. */
  function Concat(parts: seq<string>): string
  {
    Join(parts, "")
  }

  /** `s.Split(sep)`: the maximal `sep`-free pieces of `s`, empty ones included. */
  function Split(s: string, sep: char): (parts: seq<string>)
    ensures |parts| >= 1
  {
    if |s| == 0 then [""]
    else
      var rest := Split(s[1..], sep);
      if s[0] == sep then [""] + rest
      else [[s[0]] + rest[0]] + rest[1..]
  }

  predicate StartsWith(s: string, prefix: string)
  {
    |prefix| <= |s| && s[..|prefix|] == prefix
  }

  predicate EndsWith(s: string, suffix: string)
  {
    |suffix| <= |s| && s[|s| - |suffix|..] == suffix
  }

  /** `char.ToUpper` restricted to ASCII letters. */
  function Upper(c: char): char
  {
    if 'a' <= c <= 'z' then (c as int - 'a' as int + 'A' as int) as char else c
  }

  /** `char.ToLower` restricted to ASCII letters. */
  function Lower(c: char): char
  {
    if 'A' <= c <= 'Z' then (c as int - 'A' as int + 'a' as int) as char else c
  }

  /** `string.ToLower`, character by character. */
  function LowerAll(s: string): string
  {
    seq(|s|, i requires 0 <= i < |s| => Lower(s[i]))
  }

  /** `s.Replace(c.ToString(), with)`: every occurrence of `c` becomes `with`. */
  function ReplaceChar(s: string, c: char, with: string): string
  {
    if |s| == 0 then ""
    else (if s[0] == c then with else [s[0]]) + ReplaceChar(s[1..], c, with)
  }

  /** The number of occurrences of `c` in `s`. */
  function Count(s: string, c: char): nat
  {
    if |s| == 0 then 0 else (if s[0] == c then 1 else 0) + Count(s[1..], c)
  }

  // Lemmas about Split and Join

  /** A string without the separator is a single piece. */
  lemma {:induction false} SplitNoSep(s: string, sep: char)
    requires sep !in s
    ensures Split(s, sep) == [s]
  {
    if |s| > 0 {
      SplitNoSep(s[1..], sep);
      assert [s[0]] + s[1..] == s;
    }
  }

  /** The first piece starts with the first character, unless that is the separator. */
  lemma SplitHead(s: string, sep: char)
    requires |s| > 0 && s[0] != sep
    ensures |Split(s, sep)[0]| > 0 && Split(s, sep)[0][0] == s[0]
  {
  }

  /** No piece of a split holds the separator. */
  lemma {:induction false} SplitPiecesFree(s: string, sep: char)
    ensures forall i :: 0 <= i < |Split(s, sep)| ==> sep !in Split(s, sep)[i]
  {
    if |s| > 0 {
      SplitPiecesFree(s[1..], sep);
    }
  }

  /** One step of splitting: a separator starts a new piece, any other character joins the first. */
  lemma {:induction false} SplitCons(c: char, t: string, sep: char)
    ensures Split([c] + t, sep) ==
      if c == sep then [""] + Split(t, sep) else [[c] + Split(t, sep)[0]] + Split(t, sep)[1..]
  {
    assert ([c] + t)[1..] == t;
  }

  /** Lengthening the first piece commutes with appending more pieces. */
  lemma {:induction false} ExtendFirst(c: char, left: seq<string>, right: seq<string>)
    requires |left| >= 1
    ensures [[c] + (left + right)[0]] + (left + right)[1..] == [[c] + left[0]] + left[1..] + right
  {
    assert (left + right)[1..] == left[1..] + right;
  }

  /** Splitting at an explicit separator splits the two sides independently. */
  lemma {:induction false} SplitAtSep(a: string, b: string, sep: char)
    ensures Split(a + [sep] + b, sep) == Split(a, sep) + Split(b, sep)
  {
    if |a| == 0 {
      assert a + [sep] + b == [sep] + b;
      SplitCons(sep, b, sep);
    } else {
      var c, t := a[0], a[1..];
      SplitAtSep(t, b, sep);
      assert a == [c] + t;
      assert a + [sep] + b == [c] + (t + [sep] + b);
      SplitAtSepStep(c, t, b, sep);
    }
  }

  lemma {:induction false} SplitAtSepStep(c: char, t: string, b: string, sep: char)
    requires Split(t + [sep] + b, sep) == Split(t, sep) + Split(b, sep)
    ensures Split([c] + (t + [sep] + b), sep) == Split([c] + t, sep) + Split(b, sep)
  {
    SplitCons(c, t + [sep] + b, sep);
    SplitCons(c, t, sep);
    PrependPieces(c == sep, c, Split(t, sep), Split(b, sep),
      Split([c] + (t + [sep] + b), sep), Split([c] + t, sep));
  }

  /** Prepending one character to split pieces commutes with appending further pieces. */
  lemma {:induction false} PrependPieces(isSep: bool, c: char, left: seq<string>, right: seq<string>,
                                         whole: seq<string>, front: seq<string>)
    requires |left| >= 1
    requires whole == if isSep then [""] + (left + right) else [[c] + (left + right)[0]] + (left + right)[1..]
    requires front == if isSep then [""] + left else [[c] + left[0]] + left[1..]
    ensures whole == front + right
  {
    if isSep {
      assert [""] + (left + right) == [""] + left + right;
    } else {
      ExtendFirst(c, left, right);
    }
  }

  /** Text without the separator appended to a string lengthens its last piece. */
  lemma {:induction false} SplitAppend(a: string, t: string, sep: char)
    requires sep !in t
    ensures var parts := Split(a, sep);
      Split(a + t, sep) == parts[..|parts| - 1] + [parts[|parts| - 1] + t]
  {
    if |a| == 0 {
      assert a + t == t;
      SplitNoSep(t, sep);
    } else {
      var s := a + t;
      assert s[0] == a[0];
      assert s[1..] == a[1..] + t;
      SplitAppend(a[1..], t, sep);
      var rest := Split(a[1..], sep);
      var restT := Split(a[1..] + t, sep);
      var n := |rest|;
      assert restT == rest[..n - 1] + [rest[n - 1] + t];
      if a[0] == sep {
        assert Split(s, sep) == [""] + restT;
        assert Split(a, sep) == [""] + rest;
        assert ([""] + rest)[..n] == [""] + rest[..n - 1];
      } else {
        assert Split(s, sep) == [[a[0]] + restT[0]] + restT[1..];
        assert Split(a, sep) == [[a[0]] + rest[0]] + rest[1..];
        ExtendLast([a[0]], rest, restT, t);
      }
    }
  }

  /** Gluing text onto the first piece commutes with lengthening the last piece. */
  lemma {:induction false} ExtendLast(x: string, rest: seq<string>, restT: seq<string>, t: string)
    requires |rest| >= 1 && restT == rest[..|rest| - 1] + [rest[|rest| - 1] + t]
    ensures var parts := [x + rest[0]] + rest[1..];
      [x + restT[0]] + restT[1..] == parts[..|parts| - 1] + [parts[|parts| - 1] + t]
  {
    var n := |rest|;
    var parts := [x + rest[0]] + rest[1..];
    if n == 1 {
      assert restT == [rest[0] + t];
      assert x + (rest[0] + t) == (x + rest[0]) + t;
    } else {
      assert restT[0] == rest[0];
      assert restT[1..] == rest[1..n - 1] + [rest[n - 1] + t];
      assert parts[..n - 1] == [x + rest[0]] + rest[1..n - 1];
      assert parts[n - 1] == rest[n - 1];
    }
  }

  /** Joining the pieces back with the separator gives the original string. */
  lemma {:induction false} JoinSplit(s: string, sep: char)
    ensures Join(Split(s, sep), [sep]) == s
  {
    if |s| > 0 {
      JoinSplit(s[1..], sep);
      var rest := Split(s[1..], sep);
      if s[0] == sep {
        assert ([""] + rest)[1..] == rest;
        assert s == [sep] + s[1..];
      } else {
        var parts := [[s[0]] + rest[0]] + rest[1..];
        if |rest| == 1 {
          assert s == [s[0]] + s[1..];
        } else {
          assert parts[1..] == rest[1..];
          assert Join(rest, [sep]) == rest[0] + [sep] + Join(rest[1..], [sep]);
          assert s == [s[0]] + s[1..];
        }
      }
    }
  }

  /** `Concat` distributes over sequence concatenation. */
  lemma {:induction false} ConcatAppend(x: seq<string>, y: seq<string>)
    ensures Concat(x + y) == Concat(x) + Concat(y)
  {
    if |x| == 0 {
      assert x + y == y;
    } else if |x| == 1 {
      if |y| > 0 {
        assert (x + y)[1..] == y;
      }
    } else {
      assert (x + y)[1..] == x[1..] + y;
      ConcatAppend(x[1..], y);
    }
  }

  /** A character none of the parts holds is not in their concatenation. */
  lemma {:induction false} ConcatExcludes(parts: seq<string>, c: char)
    requires forall i :: 0 <= i < |parts| ==> c !in parts[i]
    ensures c !in Concat(parts)
  {
    if |parts| > 1 {
      ConcatExcludes(parts[1..], c);
    }
  }

  /** LINQ `Where`: the elements that satisfy `keep`, in their original order. */
  function Filter<T>(s: seq<T>, keep: T -> bool): seq<T>
  {
    if |s| == 0 then []
    else (if keep(s[0]) then [s[0]] else []) + Filter(s[1..], keep)
  }

  /** The concatenation of a sequence of sequences, in order. */
  function Flatten<T>(xss: seq<seq<T>>): seq<T>
  {
    if |xss| == 0 then [] else xss[0] + Flatten(xss[1..])
  }

  /** The offset at which `parts[k]` starts in `Join(parts, sep)`. */
  function JoinOffset(parts: seq<string>, sep: string, k: nat): nat
    requires k < |parts|
  {
    if k == 0 then 0 else |parts[0]| + |sep| + JoinOffset(parts[1..], sep, k - 1)
  }

  /** `needle` occurs in `hay` at `offset`. */
  predicate OccursAt(needle: string, hay: string, offset: nat)
  {
    offset + |needle| <= |hay| && hay[offset..offset + |needle|] == needle
  }

  /**
   * The text a C# verbatim literal `@"..."` denotes: every `""` stands for one
   * `"`. Used to read back what the emitter writes into such a literal.
   */
  function UndoubleQuotes(s: string): string
  {
    if |s| >= 2 && s[0] == '"' && s[1] == '"' then "\"" + UndoubleQuotes(s[2..])
    else if |s| == 0 then ""
    else [s[0]] + UndoubleQuotes(s[1..])
  }

  // Lemmas about Filter, Flatten and Join

  /** An element survives `Where` exactly when it is in the input and satisfies the filter. */
  lemma {:induction false} FilterMembers<T>(s: seq<T>, keep: T -> bool, x: T)
    ensures x in Filter(s, keep) <==> x in s && keep(x)
  {
    if |s| > 0 {
      FilterMembers(s[1..], keep, x);
      assert s == [s[0]] + s[1..];
    }
  }

  /** The flattening is empty exactly when every piece is. */
  lemma {:induction false} FlattenEmpty<T>(xss: seq<seq<T>>)
    ensures Flatten(xss) == [] <==> forall i :: 0 <= i < |xss| ==> xss[i] == []
  {
    if |xss| > 0 {
      FlattenEmpty(xss[1..]);
      assert forall i :: 1 <= i < |xss| ==> xss[i] == xss[1..][i - 1];
    }
  }

  /**
   * Every part appears in the joined text at its offset, and the offsets
   * grow in declaration order: part k ends, then the separator, then part k+1.
   */
  lemma {:induction false} JoinPlacesParts(parts: seq<string>, sep: string, k: nat)
    requires k < |parts|
    ensures OccursAt(parts[k], Join(parts, sep), JoinOffset(parts, sep, k))
    ensures k + 1 < |parts| ==>
      JoinOffset(parts, sep, k + 1) == JoinOffset(parts, sep, k) + |parts[k]| + |sep|
  {
    if |parts| > 1 {
      var rest := Join(parts[1..], sep);
      assert Join(parts, sep) == (parts[0] + sep) + rest;
      if k == 0 {
        OccursFirst(parts[0], sep + rest);
        assert (parts[0] + sep) + rest == parts[0] + (sep + rest);
      } else {
        JoinPlacesParts(parts[1..], sep, k - 1);
        assert parts[1..][k - 1] == parts[k];
        OccursShifted(parts[k], parts[0] + sep, rest, JoinOffset(parts[1..], sep, k - 1));
      }
    }
  }

  /** A string occurs at the start of anything it begins. */
  lemma OccursFirst(needle: string, tail: string)
    ensures OccursAt(needle, needle + tail, 0)
  {
    assert (needle + tail)[0..|needle|] == needle;
  }

  /** Text found in a string is found behind any prefix, shifted by the prefix's length. */
  lemma OccursShifted(needle: string, prefix: string, hay: string, offset: nat)
    requires OccursAt(needle, hay, offset)
    ensures OccursAt(needle, prefix + hay, |prefix| + offset)
  {
    assert (prefix + hay)[|prefix| + offset..|prefix| + offset + |needle|] == hay[offset..offset + |needle|];
  }

  /** Reading back a literal in which every quote was doubled restores the text. */
  lemma {:induction false} UndoubleDoubled(s: string)
    ensures UndoubleQuotes(ReplaceChar(s, '"', "\"\"")) == s
  {
    if |s| > 0 {
      UndoubleDoubled(s[1..]);
      var rest := ReplaceChar(s[1..], '"', "\"\"");
      if s[0] == '"' {
        assert ReplaceChar(s, '"', "\"\"") == "\"\"" + rest;
        assert ("\"\"" + rest)[2..] == rest;
      } else {
        var d := [s[0]] + rest;
        assert ReplaceChar(s, '"', "\"\"") == d;
        assert d[1..] == rest;
      }
      assert s == [s[0]] + s[1..];
    }
  }

  /** Replacing a character works piece by piece. */
  lemma {:induction false} ReplaceCharAppend(s: string, t: string, c: char, with: string)
    ensures ReplaceChar(s + t, c, with) == ReplaceChar(s, c, with) + ReplaceChar(t, c, with)
  {
    if |s| > 0 {
      assert (s + t)[1..] == s[1..] + t;
      ReplaceCharAppend(s[1..], t, c, with);
    } else {
      assert s + t == t;
    }
  }

  /** A text without the character is left unchanged. */
  lemma {:induction false} ReplaceCharAbsent(s: string, c: char, with: string)
    requires c !in s
    ensures ReplaceChar(s, c, with) == s
  {
    if |s| > 0 {
      assert c !in s[1..];
      ReplaceCharAbsent(s[1..], c, with);
      assert s == [s[0]] + s[1..];
    }
  }

  /** Every occurrence of the character grows the text by the replacement's length less one. */
  lemma {:induction false} ReplaceCharLength(s: string, c: char, with: string)
    ensures |ReplaceChar(s, c, with)| == |s| + Count(s, c) * (|with| - 1)
  {
    if |s| > 0 {
      ReplaceCharLength(s[1..], c, with);
      var n := Count(s[1..], c);
      if s[0] == c {
        assert (n + 1) * (|with| - 1) == n * (|with| - 1) + |with| - 1;
      }
    }
  }

  /** The occurrences of a character in a concatenation add up. */
  lemma {:induction false} CountAppend(s: string, t: string, c: char)
    ensures Count(s + t, c) == Count(s, c) + Count(t, c)
  {
    if |s| > 0 {
      assert (s + t)[1..] == s[1..] + t;
      CountAppend(s[1..], t, c);
    } else {
      assert s + t == t;
    }
  }

  /** A text without the character has no occurrence of it. */
  lemma {:induction false} CountAbsent(s: string, c: char)
    requires c !in s
    ensures Count(s, c) == 0
  {
    if |s| > 0 {
      assert c !in s[1..];
      CountAbsent(s[1..], c);
    }
  }

  /** When the replacement does not contain the character, none is left. */
  lemma {:induction false} ReplaceCharRemoves(s: string, c: char, with: string)
    requires c !in with
    ensures c !in ReplaceChar(s, c, with)
  {
    if |s| > 0 {
      ReplaceCharRemoves(s[1..], c, with);
    }
  }

  /** The pieces of a concatenation: a prefix, a middle at its offset, a suffix. */
  lemma {:induction false} Pieces(a: string, b: string, c: string)
    ensures StartsWith(a + b + c, a)
    ensures OccursAt(b, a + b + c, |a|)
    ensures EndsWith(a + b + c, c)
  {
    var t := a + b + c;
    assert t[..|a|] == a;
    assert t[|a|..|a| + |b|] == b;
    assert t[|t| - |c|..] == c;
  }

  /** Both sides of an append: a prefix and a suffix. */
  lemma {:induction false} Appended(a: string, b: string)
    ensures StartsWith(a + b, a) && EndsWith(a + b, b)
  {
    assert (a + b)[..|a|] == a;
    assert (a + b)[|a|..] == b;
  }

  /** A part of a joined text keeps its place when the text is framed by an opening and a closing. */
  lemma JoinPlacesPartsFramed(open: string, parts: seq<string>, sep: string, close: string, k: nat)
    requires k < |parts|
    ensures StartsWith(open + Join(parts, sep) + close, open)
    ensures OccursAt(parts[k], open + Join(parts, sep) + close, |open| + JoinOffset(parts, sep, k))
  {
    JoinPlacesParts(parts, sep, k);
    var all := open + Join(parts, sep) + close;
    var body := Join(parts, sep);
    var off := JoinOffset(parts, sep, k);
    assert all[..|open|] == open;
    assert all[|open| + off..|open| + off + |parts[k]|] == body[off..off + |parts[k]|];
  }

  /** The same placement, for a text already known to be framed that way. */
  lemma {:induction false} JoinPlacesPartsWithin(whole: string, open: string, parts: seq<string>, sep: string, close: string, k: nat)
    requires whole == open + Join(parts, sep) + close
    requires k < |parts|
    ensures StartsWith(whole, open)
    ensures OccursAt(parts[k], whole, |open| + JoinOffset(parts, sep, k))
    ensures EndsWith(whole, close)
  {
    JoinPlacesPartsFramed(open, parts, sep, close, k);
    Appended(open + Join(parts, sep), close);
  }
}
