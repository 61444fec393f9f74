/** The string built-ins the application relies on: `trim`, `split` with a
    one-character separator, `join` and `includes`. Strings are sequences of
    characters; UTF-16 code units are not modelled separately. */
module JsString {

  /** ECMAScript WhiteSpace and LineTerminator code points, the set `trim` removes. */
  predicate IsWhitespace(c: char) {
    || c == '\t' || c == '\n' || c == '\U{000B}' || c == '\U{000C}' || c == '\r'
    || c == ' ' || c == '\U{00A0}' || c == '\U{1680}'
    || ('\U{2000}' <= c <= '\U{200A}')
    || c == '\U{2028}' || c == '\U{2029}' || c == '\U{202F}' || c == '\U{205F}'
    || c == '\U{3000}' || c == '\U{FEFF}'
  }

  predicate AllWhitespace(s: string) {
    forall k :: 0 <= k < |s| ==> IsWhitespace(s[k])
  }

  /** `s.trimStart()`: the suffix left after dropping leading whitespace. */
  function TrimStart(s: string): (r: string)
    ensures |r| <= |s| && r == s[|s| - |r|..]
    ensures |r| > 0 ==> !IsWhitespace(r[0])
    ensures AllWhitespace(s[..|s| - |r|])
    decreases |s|
  {
    if |s| > 0 && IsWhitespace(s[0]) then
      var r := TrimStart(s[1..]);
      assert s[..|s| - |r|] == [s[0]] + s[1..][..|s| - 1 - |r|];
      r
    else s
  }

  /** `s.trimEnd()`: the prefix left after dropping trailing whitespace. */
  function TrimEnd(s: string): (r: string)
    ensures |r| <= |s| && r == s[..|r|]
    ensures |r| > 0 ==> !IsWhitespace(r[|r| - 1])
    ensures AllWhitespace(s[|r|..])
    decreases |s|
  {
    if |s| > 0 && IsWhitespace(s[|s| - 1]) then
      var r := TrimEnd(s[..|s| - 1]);
      assert s[|r|..] == s[..|s| - 1][|r|..] + [s[|s| - 1]];
      r
    else s
  }

  /** `s.trim()`: `s` without leading and trailing whitespace. */
  function Trim(s: string): (r: string)
    ensures |r| > 0 ==> !IsWhitespace(r[0]) && !IsWhitespace(r[|r| - 1])
    ensures |r| == 0 <==> AllWhitespace(s)
    ensures |TrimStart(s)| >= |r| && r == s[|s| - |TrimStart(s)|..][..|r|]
    ensures AllWhitespace(s[..|s| - |TrimStart(s)|])
    ensures AllWhitespace(s[|s| - |TrimStart(s)| + |r|..])
  {
    var t := TrimStart(s);
    var r := TrimEnd(t);
    EmptyTrimAllWhitespace(s);
    TrimmedTail(s);
    r
  }

  /** What `trimEnd` drops after `trimStart` is the whitespace tail of `s`. */
  lemma TrimmedTail(s: string)
    ensures var t := TrimStart(s);
            AllWhitespace(s[|s| - |t| + |TrimEnd(t)|..])
  {
    var t := TrimStart(s);
    var n := |TrimEnd(t)|;
    SuffixOfSuffix(s, t, n);
  }

  lemma SuffixOfSuffix(s: string, t: string, n: nat)
    requires |t| <= |s| && t == s[|s| - |t|..] && n <= |t|
    ensures s[|s| - |t| + n..] == t[n..]
  {
  }

  /** Nothing survives both trims only when every character is whitespace. */
  lemma EmptyTrimAllWhitespace(s: string)
    ensures |TrimEnd(TrimStart(s))| == 0 ==> AllWhitespace(s)
  {
    TrimEndEmpty(TrimStart(s));
    TrimStartWhitespace(s);
  }

  lemma TrimEndEmpty(t: string)
    ensures |TrimEnd(t)| == 0 ==> AllWhitespace(t)
  {
    assert t[0..] == t;
  }

  lemma TrimStartWhitespace(s: string)
    ensures AllWhitespace(TrimStart(s)) ==> AllWhitespace(s)
  {
    var t := TrimStart(s);
    if AllWhitespace(t) {
      var n := |s| - |t|;
      assert s[..n] + t == s;
      WhitespaceConcat(s[..n], t);
    }
  }

  lemma WhitespaceConcat(a: string, b: string)
    requires AllWhitespace(a) && AllWhitespace(b)
    ensures AllWhitespace(a + b)
  {
    forall k | 0 <= k < |a + b|
      ensures IsWhitespace((a + b)[k])
    {
      if k >= |a| {
        assert (a + b)[k] == b[k - |a|];
      }
    }
  }

  /** `parts.join(sep)`. */
  function Join(parts: seq<string>, sep: string): string
  {
    if |parts| == 0 then ""
    else if |parts| == 1 then parts[0]
    else parts[0] + sep + Join(parts[1..], sep)
  }

  /** `s.split(sep)` for a one-character separator: the maximal separator-free
      pieces, empty ones included; `"".split(",")` is `[""]`. */
  function Split(s: string, sep: char): (r: seq<string>)
    ensures |r| >= 1
    ensures forall k :: 0 <= k < |r| ==> sep !in r[k]
    ensures Join(r, [sep]) == s
    decreases |s|
  {
    if |s| == 0 then [""]
    else
      var rest := Split(s[1..], sep);
      if s[0] == sep then
        assert ([""] + rest)[1..] == rest;
        [""] + rest
      else
        var r := [[s[0]] + rest[0]] + rest[1..];
        assert r[1..] == rest[1..];
        assert s == [s[0]] + s[1..];
        r
  }

  /** `hay.includes(needle)`. */
  predicate Includes(hay: string, needle: string)
    decreases |hay|
  {
    needle <= hay || (|hay| > 0 && Includes(hay[1..], needle))
  }

  /** Every string includes the empty string, so an empty query matches everything. */
  lemma IncludesEmpty(hay: string)
    ensures Includes(hay, "")
  {
  }

  /** The needle occurs in the haystack starting at offset `i`. */
  predicate OccursAt(hay: string, needle: string, i: nat) {
    i + |needle| <= |hay| && hay[i..i + |needle|] == needle
  }

  /** Every occurrence of the needle, at any offset, is found. */
  lemma {:induction false} IncludesAt(hay: string, needle: string, i: nat)
    requires OccursAt(hay, needle, i)
    ensures Includes(hay, needle)
    decreases i
  {
    if i > 0 {
      assert hay[1..][i - 1..i - 1 + |needle|] == needle;
      IncludesAt(hay[1..], needle, i - 1);
    }
  }

  /** Conversely, `Includes` holds only where the needle occurs at some
      offset: together, `Includes` finds exactly the occurrences. */
  lemma {:induction false} IncludesWitness(hay: string, needle: string)
    requires Includes(hay, needle)
    ensures exists i: nat :: OccursAt(hay, needle, i)
    decreases |hay|
  {
    if needle <= hay {
      assert hay[0..|needle|] == needle;
      assert OccursAt(hay, needle, 0);
    } else {
      IncludesWitness(hay[1..], needle);
      var i: nat :| OccursAt(hay[1..], needle, i);
      assert hay[i + 1..i + 1 + |needle|] == hay[1..][i..i + |needle|];
      assert OccursAt(hay, needle, i + 1);
    }
  }

  /** Splitting and re-joining with the same separator gives the input back,
      and a separator-free string splits into itself. */
  lemma SplitWithoutSeparator(s: string, sep: char)
    requires sep !in s
    ensures Split(s, sep) == [s]
  {
    var r := Split(s, sep);
    if |r| > 1 {
      assert sep in Join(r, [sep]) by {
        JoinContainsSeparator(r, sep);
      }
    }
  }

  lemma {:induction false} JoinContainsSeparator(parts: seq<string>, sep: char)
    requires |parts| > 1
    ensures sep in Join(parts, [sep])
  {
    var j := Join(parts, [sep]);
    assert j == parts[0] + [sep] + Join(parts[1..], [sep]);
    assert j[|parts[0]|] == sep;
  }

  /** Trimming a string that starts and ends with non-whitespace leaves it alone,
      so `Trim` is idempotent. */
  lemma TrimNoOp(s: string)
    requires |s| == 0 || (!IsWhitespace(s[0]) && !IsWhitespace(s[|s| - 1]))
    ensures Trim(s) == s
  {
  }

  lemma TrimIdempotent(s: string)
    ensures Trim(Trim(s)) == Trim(s)
  {
    TrimNoOp(Trim(s));
  }

  /** Trimming only removes characters: whatever is left was in the input. */
  lemma TrimKeepsChars(s: string, c: char)
    requires c in Trim(s)
    ensures c in s
  {
    var r := Trim(s);
    var i := |s| - |TrimStart(s)|;
    var k :| 0 <= k < |r| && r[k] == c;
    assert s[i + k] == c;
  }

  /** Splitting at the first separator: the piece before it, then the split of
      the rest. */
  lemma {:induction false} SplitFirst(a: string, b: string, sep: char)
    requires sep !in a
    ensures Split(a + [sep] + b, sep) == [a] + Split(b, sep)
    decreases |a|
  {
    var s := a + [sep] + b;
    if |a| == 0 {
      assert s[1..] == b;
    } else {
      assert s[1..] == a[1..] + [sep] + b;
      SplitFirst(a[1..], b, sep);
      assert [a[0]] + a[1..] == a;
    }
  }

  /** A string of non-whitespace at both ends trims to itself, and one that
      starts with a single space before such a string trims to that string. */
  lemma TrimLeadingSpace(s: string)
    requires |s| > 0 && !IsWhitespace(s[0]) && !IsWhitespace(s[|s| - 1])
    ensures Trim(" " + s) == s
  {
    assert (" " + s)[1..] == s;
    assert TrimStart(" " + s) == s;
  }
}
