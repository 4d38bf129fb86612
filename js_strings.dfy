/**
 * The JavaScript string operations the core relies on: `trim`, `split("\n")`,
 * `split(/\s+/)` and `toUpperCase`.
 */
module JsStrings {

  /** JavaScript's WhiteSpace and LineTerminator characters (what `trim` removes and `\s` matches). */
  predicate IsWhitespace(c: char) {
    || c == '\t' || c == '\n' || c == '\U{000B}' || c == '\U{000C}' || c == '\r' || c == ' '
    || c == '\U{00A0}' || c == '\U{1680}' || ('\U{2000}' <= c <= '\U{200A}')
    || c == '\U{2028}' || c == '\U{2029}' || c == '\U{202F}' || c == '\U{205F}'
    || c == '\U{3000}' || c == '\U{FEFF}'
  }

  predicate NoWhitespace(s: string) {
    forall i :: 0 <= i < |s| ==> !IsWhitespace(s[i])
  }

  /** Neither end of `s` is whitespace: what `trim` guarantees of its result. */
  predicate Trimmed(s: string) {
    s == [] || (!IsWhitespace(s[0]) && !IsWhitespace(s[|s| - 1]))
  }

  /** `s.trimStart()`: drops the leading whitespace and nothing else. */
  function TrimStart(s: string): (r: string)
    ensures |r| <= |s| && r == s[|s| - |r|..]
    ensures forall i :: 0 <= i < |s| - |r| ==> IsWhitespace(s[i])
    ensures r == [] || !IsWhitespace(r[0])
  {
    if s == [] || !IsWhitespace(s[0]) then s else TrimStart(s[1..])
  }

  /** Drops the trailing whitespace and nothing else. */
  function TrimEnd(s: string): (r: string)
    ensures |r| <= |s| && r == s[..|r|]
    ensures forall i :: |r| <= i < |s| ==> IsWhitespace(s[i])
    ensures r == [] || !IsWhitespace(r[|r| - 1])
  {
    if s == [] || !IsWhitespace(s[|s| - 1]) then s else TrimEnd(s[..|s| - 1])
  }

  /** `s.trim()`: the part of `s` between its leading and its trailing whitespace. */
  function Trim(s: string): (r: string)
    ensures Trimmed(r)
    ensures exists i, j ::
              && 0 <= i <= j <= |s| && r == s[i..j]
              && (forall k :: 0 <= k < i ==> IsWhitespace(s[k]))
              && (forall k :: j <= k < |s| ==> IsWhitespace(s[k]))
  {
    var front := TrimStart(s);
    var r := TrimEnd(front);
    var i := |s| - |front|;
    assert r == s[i..i + |r|];
    r
  }

  /** Index of the first occurrence of `c` in `s`. */
  function IndexOf(s: string, c: char): (i: nat)
    requires c in s
    ensures i < |s| && s[i] == c && c !in s[..i]
  {
    if s[0] == c then 0 else 1 + IndexOf(s[1..], c)
  }

  /** `s.split(sep)` for a one-character separator. */
  function Split(s: string, sep: char): (parts: seq<string>)
    ensures |parts| >= 1
    ensures forall p :: p in parts ==> sep !in p
    decreases |s|
  {
    if sep !in s then [s]
    else
      var i := IndexOf(s, sep);
      [s[..i]] + Split(s[i + 1..], sep)
  }

  /** `parts.join(sep)`, the inverse of `Split`. */
  function Join(parts: seq<string>, sep: char): string
    requires |parts| >= 1
  {
    if |parts| == 1 then parts[0] else parts[0] + [sep] + Join(parts[1..], sep)
  }

  /** Splitting a string and joining the parts back gives the string. */
  lemma {:induction false} JoinSplit(s: string, sep: char)
    ensures Join(Split(s, sep), sep) == s
    decreases |s|
  {
    if sep in s {
      var i := IndexOf(s, sep);
      JoinSplit(s[i + 1..], sep);
      assert s == s[..i] + [sep] + s[i + 1..];
    }
  }

  /** Splitting at the first separator peels off the text before it. */
  lemma SplitFirst(a: string, sep: char, b: string)
    requires sep !in a
    ensures Split(a + [sep] + b, sep) == [a] + Split(b, sep)
  {
    var s := a + [sep] + b;
    assert s[|a|] == sep;
    var i := IndexOf(s, sep);
    assert s[..i] == a;
    assert s[i + 1..] == b;
  }

  /** Splitting at any separator splits the two sides independently. */
  lemma {:induction false} SplitAppend(a: string, sep: char, b: string)
    ensures Split(a + [sep] + b, sep) == Split(a, sep) + Split(b, sep)
    decreases |a|
  {
    if sep !in a {
      SplitFirst(a, sep, b);
    } else {
      var i := IndexOf(a, sep);
      var front, back := a[..i], a[i + 1..];
      assert a == front + [sep] + back;
      var rest := back + [sep] + b;
      calc {
        Split(a + [sep] + b, sep);
      == { assert a + [sep] + b == front + [sep] + rest; }
        Split(front + [sep] + rest, sep);
      == { SplitFirst(front, sep, rest); }
        [front] + Split(rest, sep);
      == { SplitAppend(back, sep, b); }
        [front] + (Split(back, sep) + Split(b, sep));
      == { SplitFirst(front, sep, back); }
        Split(a, sep) + Split(b, sep);
      }
    }
  }

  /** Joining parts free of the separator and splitting again gives the parts back. */
  lemma {:induction false} SplitJoin(parts: seq<string>, sep: char)
    requires |parts| >= 1
    requires forall k :: 0 <= k < |parts| ==> sep !in parts[k]
    ensures Split(Join(parts, sep), sep) == parts
    decreases |parts|
  {
    if |parts| > 1 {
      SplitJoin(parts[1..], sep);
      SplitFirst(parts[0], sep, Join(parts[1..], sep));
    }
  }

  /** The longest prefix of `s` that holds no whitespace. */
  function LeadingNonWhitespace(s: string): (w: string)
    ensures w <= s && NoWhitespace(w)
    ensures |w| < |s| ==> IsWhitespace(s[|w|])
  {
    if s == [] || IsWhitespace(s[0]) then [] else [s[0]] + LeadingNonWhitespace(s[1..])
  }

  /** `s.split(/\s+/)`: the pieces of `s` between maximal runs of whitespace. */
  function Fields(s: string): (parts: seq<string>)
    ensures |parts| >= 1
    ensures forall p :: p in parts ==> NoWhitespace(p)
    ensures parts[0] == LeadingNonWhitespace(s)
    decreases |s|
  {
    var w := LeadingNonWhitespace(s);
    if |w| == |s| then [s]
    else [w] + Fields(TrimStart(s[|w|..]))
  }

  /** A non-empty string of whitespace only. */
  predicate WhitespaceRun(g: string) {
    g != [] && forall i :: 0 <= i < |g| ==> IsWhitespace(g[i])
  }

  /** The leading whitespace of `t`: what `TrimStart` drops. */
  function LeadingWhitespace(t: string): (g: string)
    ensures t == g + TrimStart(t)
    ensures forall i :: 0 <= i < |g| ==> IsWhitespace(g[i])
    ensures t != [] && IsWhitespace(t[0]) ==> g != []
  {
    t[..|t| - |TrimStart(t)|]
  }

  /** The whitespace runs `Fields` splits at, in order. */
  function Gaps(s: string): (gaps: seq<string>)
    ensures forall g :: g in gaps ==> WhitespaceRun(g)
    decreases |s|
  {
    var w := LeadingNonWhitespace(s);
    if |w| == |s| then []
    else
      var tail := s[|w|..];
      [LeadingWhitespace(tail)] + Gaps(TrimStart(tail))
  }

  /** Parts with the given gaps between them. */
  function Weave(parts: seq<string>, gaps: seq<string>): string
    requires |parts| == |gaps| + 1
    decreases |gaps|
  {
    if gaps == [] then parts[0] else parts[0] + gaps[0] + Weave(parts[1..], gaps[1..])
  }

  lemma ConcatAssoc(x: string, y: string, z: string)
    ensures x + y + z == x + (y + z)
  {
  }

  /** A string is its longest whitespace-free prefix followed by what comes after it. */
  lemma LeadingSplit(s: string, w: string)
    requires w == LeadingNonWhitespace(s)
    ensures s == w + s[|w|..]
  {
    assert w == s[..|w|];
  }

  /** Past a first field that stops at whitespace, `Fields` and `Gaps` go on after the gap. */
  lemma FieldsGapsStep(s: string, w: string, tail: string)
    requires w == LeadingNonWhitespace(s) && |w| < |s| && tail == s[|w|..]
    ensures Fields(s) == [w] + Fields(TrimStart(tail))
    ensures Gaps(s) == [LeadingWhitespace(tail)] + Gaps(TrimStart(tail))
  {
  }

  /**
   * `Fields` loses only the whitespace it splits at: the string is its fields
   * with one non-empty whitespace run between neighbours.
   */
  lemma {:induction false} FieldsWeave(s: string)
    ensures |Gaps(s)| + 1 == |Fields(s)|
    ensures Weave(Fields(s), Gaps(s)) == s
    decreases |s|
  {
    var w := LeadingNonWhitespace(s);
    if |w| < |s| {
      var tail := s[|w|..];
      var gap, rest := LeadingWhitespace(tail), TrimStart(tail);
      FieldsGapsStep(s, w, tail);
      FieldsWeave(rest);
      LeadingSplit(s, w);
      var fields, gaps := [w] + Fields(rest), [gap] + Gaps(rest);
      assert fields[1..] == Fields(rest) && gaps[1..] == Gaps(rest);
      calc {
        Weave(Fields(s), Gaps(s));
      ==
        Weave(fields, gaps);
      ==
        w + gap + Weave(Fields(rest), Gaps(rest));
      == { ConcatAssoc(w, gap, rest); }
        w + (gap + rest);
      ==
        s;
      }
    } else {
      assert w == s;
    }
  }

  /** On a trimmed line every field is non-empty, and there is more than one exactly when the line holds whitespace. */
  lemma {:induction false} FieldsOfTrimmed(s: string)
    requires s != [] && Trimmed(s)
    ensures forall k :: 0 <= k < |Fields(s)| ==> Fields(s)[k] != []
    ensures |Fields(s)| > 1 <==> !NoWhitespace(s)
    decreases |s|
  {
    var w := LeadingNonWhitespace(s);
    if |w| < |s| {
      var gap := s[|w|..];
      var rest := TrimStart(gap);
      assert !IsWhitespace(gap[|gap| - 1]);
      assert rest != [];
      assert rest[|rest| - 1] == s[|s| - 1];
      FieldsOfTrimmed(rest);
      assert IsWhitespace(s[|w|]);
    } else {
      assert w == s;
    }
  }

  /** ASCII upper-casing of one character. */
  function UpperChar(c: char): char {
    if 'a' <= c <= 'z' then (c as int - 32) as char else c
  }

  /** `s.toUpperCase()` on ASCII letters. */
  function Upper(s: string): (r: string)
    ensures |r| == |s|
    ensures forall i :: 0 <= i < |s| ==> r[i] == UpperChar(s[i])
  {
    seq(|s|, i requires 0 <= i < |s| => UpperChar(s[i]))
  }

  /** Upper-casing leaves no lower-case ASCII letter and is idempotent. */
  lemma UpperIdempotent(s: string)
    ensures forall i :: 0 <= i < |Upper(s)| ==> !('a' <= Upper(s)[i] <= 'z')
    ensures Upper(Upper(s)) == Upper(s)
  {
  }
}
