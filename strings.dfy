/**
  The JavaScript string operations the tools rely on, stated over `seq<char>`:
  `trim`, ASCII `toLowerCase`, `includes`, `split` on a one-character
  separator, `split(/\s+/)`, `join` and the decimal rendering of a count.
 */
module Strings {

  datatype Option<+T> = None | Some(value: T)

  /** ECMAScript WhiteSpace and LineTerminator code points: what `trim()` removes and `\s` matches. */
  predicate IsWhitespace(c: char) {
    || c == '\t' || c == '\n' || c == '\U{000B}' || c == '\U{000C}' || c == '\r' || c == ' '
    || c == '\U{00A0}' || c == '\U{1680}' || ('\U{2000}' <= c <= '\U{200A}')
    || c == '\U{2028}' || c == '\U{2029}' || c == '\U{202F}' || c == '\U{205F}'
    || c == '\U{3000}' || c == '\U{FEFF}'
  }

  predicate AllWhitespace(s: string) {
    forall k :: 0 <= k < |s| ==> IsWhitespace(s[k])
  }

  predicate NoWhitespace(s: string) {
    forall k :: 0 <= k < |s| ==> !IsWhitespace(s[k])
  }

  /** A non-empty run of characters without whitespace, as `split(/\s+/)` yields. */
  predicate IsWord(w: string) {
    w != [] && NoWhitespace(w)
  }

  /** A word without upper-case letters. */
  predicate IsLowerWord(w: string) {
    IsWord(w) && NoUpper(w)
  }

  /** Every element of `words` is a word. */
  predicate Words(words: seq<string>) {
    forall k :: 0 <= k < |words| ==> IsWord(words[k])
  }

  /** Every element of `words` is a lower-case word. */
  predicate LowerWords(words: seq<string>) {
    forall k :: 0 <= k < |words| ==> IsLowerWord(words[k])
  }

  /** `s.trimStart()`: the longest suffix of `s` that does not start with whitespace. */
  function TrimStart(s: string): (r: string)
    ensures |r| <= |s| && r == s[|s| - |r|..]
    ensures AllWhitespace(s[..|s| - |r|])
    ensures r == [] || !IsWhitespace(r[0])
  {
    if s != [] && IsWhitespace(s[0]) then TrimStart(s[1..]) else s
  }

  /** `s.trimEnd()`: the longest prefix of `s` that does not end with whitespace. */
  function TrimEnd(s: string): (r: string)
    ensures |r| <= |s| && r == s[..|r|]
    ensures AllWhitespace(s[|r|..])
    ensures r == [] || !IsWhitespace(r[|r| - 1])
  {
    if s != [] && IsWhitespace(s[|s| - 1]) then TrimEnd(s[..|s| - 1]) else s
  }

  /** `s.trim()`. */
  function Trim(s: string): string {
    TrimEnd(TrimStart(s))
  }

  /** A string made only of whitespace trims to the empty string. */
  lemma {:induction false} TrimAllWhitespace(s: string)
    requires AllWhitespace(s)
    ensures Trim(s) == ""
  {
    if s != [] {
      TrimAllWhitespace(s[1..]);
    }
  }

  /** A string that neither starts nor ends with whitespace is its own trim. */
  lemma TrimUnchanged(s: string)
    requires s == [] || (!IsWhitespace(s[0]) && !IsWhitespace(s[|s| - 1]))
    ensures Trim(s) == s
  {
  }

  /** ASCII-only `toLowerCase` of one character. */
  function LowerChar(c: char): char {
    if 'A' <= c <= 'Z' then (c as int - 'A' as int + 'a' as int) as char else c
  }

  function ToLower(s: string): (r: string)
    ensures |r| == |s|
    ensures forall k :: 0 <= k < |s| ==> r[k] == LowerChar(s[k])
  {
    if s == [] then [] else [LowerChar(s[0])] + ToLower(s[1..])
  }

  predicate NoUpper(s: string) {
    forall k :: 0 <= k < |s| ==> !('A' <= s[k] <= 'Z')
  }

  /** Lowering a string without upper-case letters changes nothing. */
  lemma ToLowerNoUpper(s: string)
    requires NoUpper(s)
    ensures ToLower(s) == s
  {
  }

  /** A lowered string has no upper-case letter, so lowering it again changes nothing. */
  lemma ToLowerIdempotent(s: string)
    ensures NoUpper(ToLower(s))
    ensures ToLower(ToLower(s)) == ToLower(s)
  {
    ToLowerNoUpper(ToLower(s));
  }

  /** Joining strings without upper-case letters gives one without them. */
  lemma {:induction false} JoinNoUpper(parts: seq<string>, sep: string)
    requires NoUpper(sep)
    requires forall k :: 0 <= k < |parts| ==> NoUpper(parts[k])
    ensures NoUpper(Join(parts, sep))
    decreases |parts|
  {
    if |parts| > 1 {
      JoinNoUpper(parts[1..], sep);
    }
  }

  /** `s.includes(sub)`: `sub` occurs in `s` at some position. */
  predicate Contains(s: string, sub: string)
    decreases |s|
  {
    sub <= s || (s != [] && Contains(s[1..], sub))
  }

  /** Whatever text surrounds `b`, the result contains `b`. */
  lemma {:induction false} ContainsInfix(a: string, b: string, c: string)
    ensures Contains(a + b + c, b)
  {
    if a == [] {
      assert a + b + c == b + c;
    } else {
      assert (a + b + c)[1..] == a[1..] + b + c;
      ContainsInfix(a[1..], b, c);
    }
  }

  /** `s.split(c)` for a one-character separator: the pieces between occurrences of `c`. */
  function Split(s: string, c: char): (parts: seq<string>)
    ensures |parts| >= 1
    decreases |s|
  {
    if s == [] then [""]
    else if s[0] == c then [""] + Split(s[1..], c)
    else
      var rest := Split(s[1..], c);
      [[s[0]] + rest[0]] + rest[1..]
  }

  /** `parts.join(sep)`. */
  function Join(parts: seq<string>, sep: string): string
    decreases |parts|
  {
    if parts == [] then ""
    else if |parts| == 1 then parts[0]
    else parts[0] + sep + Join(parts[1..], sep)
  }

  /** Joining the pieces of a split gives back the original string. */
  lemma {:induction false} JoinSplit(s: string, c: char)
    ensures Join(Split(s, c), [c]) == s
    decreases |s|
  {
    if s != [] {
      var rest := Split(s[1..], c);
      JoinSplit(s[1..], c);
      assert Join(rest, [c]) == s[1..];
      if s[0] == c {
        SplitConsSeparator(s, c);
        JoinAfterEmpty(rest, [c]);
      } else {
        SplitConsOther(s, c);
        JoinExtendFirst(s[0], rest, [c]);
      }
      assert Join(Split(s, c), [c]) == [s[0]] + s[1..];
      assert [s[0]] + s[1..] == s;
    }
  }

  lemma SplitConsSeparator(s: string, c: char)
    requires s != [] && s[0] == c
    ensures Split(s, c) == [""] + Split(s[1..], c)
  {
  }

  lemma SplitConsOther(s: string, c: char)
    requires s != [] && s[0] != c
    ensures Split(s, c) == [[s[0]] + Split(s[1..], c)[0]] + Split(s[1..], c)[1..]
  {
  }

  /** An empty first piece contributes only its separator. */
  lemma JoinAfterEmpty(parts: seq<string>, sep: string)
    requires |parts| >= 1
    ensures Join([""] + parts, sep) == sep + Join(parts, sep)
  {
    assert ([""] + parts)[1..] == parts;
  }

  /** Extending the first piece by a character extends the join by it. */
  lemma JoinExtendFirst(x: char, parts: seq<string>, sep: string)
    requires |parts| >= 1
    ensures Join([[x] + parts[0]] + parts[1..], sep) == [x] + Join(parts, sep)
  {
    var first := [x] + parts[0];
    if |parts| > 1 {
      var tail := Join(parts[1..], sep);
      assert ([first] + parts[1..])[1..] == parts[1..];
      assert Join([first] + parts[1..], sep) == first + sep + tail;
      assert Join(parts, sep) == parts[0] + sep + tail;
    }
  }

  /** Splitting a piece free of `c` followed by more text extends the first piece only. */
  lemma {:induction false} SplitAfterPiece(w: string, t: string, c: char)
    requires c !in w
    ensures Split(w + t, c) == [w + Split(t, c)[0]] + Split(t, c)[1..]
    decreases |w|
  {
    if w != [] {
      assert (w + t)[0] == w[0];
      assert (w + t)[1..] == w[1..] + t;
      SplitAfterPiece(w[1..], t, c);
      assert [w[0]] + (w[1..] + Split(t, c)[0]) == w + Split(t, c)[0];
    } else {
      assert w + t == t;
      assert w + Split(t, c)[0] == Split(t, c)[0];
      assert Split(t, c) == [Split(t, c)[0]] + Split(t, c)[1..];
    }
  }

  /** Splitting a join of pieces free of the separator gives back the pieces. */
  lemma {:induction false} SplitJoin(parts: seq<string>, c: char)
    requires |parts| >= 1
    requires forall k :: 0 <= k < |parts| ==> c !in parts[k]
    ensures Split(Join(parts, [c]), c) == parts
    decreases |parts|
  {
    if |parts| == 1 {
      SplitAfterPiece(parts[0], "", c);
      assert parts[0] + "" == parts[0];
    } else {
      var tail := Join(parts[1..], [c]);
      SplitJoin(parts[1..], c);
      assert Split([c] + tail, c) == [""] + Split(tail, c);
      assert Join(parts, [c]) == parts[0] + ([c] + tail);
      SplitAfterPiece(parts[0], [c] + tail, c);
      assert parts[0] + "" == parts[0];
      assert parts == [parts[0]] + parts[1..];
    }
  }

  /** Joining two non-empty runs of pieces puts one separator between their joins. */
  lemma {:induction false} JoinAppend(a: seq<string>, b: seq<string>, sep: string)
    requires |a| >= 1 && |b| >= 1
    ensures Join(a + b, sep) == Join(a, sep) + sep + Join(b, sep)
    decreases |a|
  {
    if |a| == 1 {
      assert (a + b)[1..] == b;
    } else {
      JoinAppend(a[1..], b, sep);
      assert (a + b)[1..] == a[1..] + b;
    }
  }

  /**
    `s.split(c).pop()`: the longest suffix of `s` without `c`. It is all of
    `s` when `s` has no `c`, and otherwise it follows the last `c`.
   */
  function LastSegment(s: string, c: char): (r: string)
    ensures c !in r
    ensures |r| <= |s| && s[|s| - |r|..] == r
    ensures c !in s ==> r == s
    ensures c in s ==> |r| < |s| && s[|s| - |r| - 1] == c
  {
    var parts := Split(s, c);
    SplitPiecesFree(s, c);
    SplitWithoutSeparator(s, c);
    SplitLastPiece(s, c);
    parts[|parts| - 1]
  }

  lemma {:induction false} SplitPiecesFree(s: string, c: char)
    ensures forall k :: 0 <= k < |Split(s, c)| ==> c !in Split(s, c)[k]
    decreases |s|
  {
    if s != [] {
      SplitPiecesFree(s[1..], c);
    }
  }

  lemma {:induction false} SplitWithoutSeparator(s: string, c: char)
    ensures c !in s ==> Split(s, c) == [s]
    decreases |s|
  {
    if s != [] && c !in s {
      SplitWithoutSeparator(s[1..], c);
      assert s == [s[0]] + s[1..];
    }
  }

  /** The last piece of a split ends the string, right after the last separator when there is one. */
  predicate LastPieceEnds(s: string, c: char) {
    var parts := Split(s, c);
    var last := parts[|parts| - 1];
    && |last| <= |s| && s[|s| - |last|..] == last
    && (c in s ==> |parts| >= 2 && |last| < |s| && s[|s| - |last| - 1] == c)
  }

  lemma {:induction false} SplitLastPiece(s: string, c: char)
    ensures LastPieceEnds(s, c)
    decreases |s|
  {
    if s != [] {
      SplitLastPiece(s[1..], c);
      if s[0] == c {
        LastPieceAfterSeparator(s, c);
      } else {
        LastPieceAfterOther(s, c);
      }
    }
  }

  lemma LastPieceAfterSeparator(s: string, c: char)
    requires s != [] && s[0] == c && LastPieceEnds(s[1..], c)
    ensures LastPieceEnds(s, c)
  {
    var t := s[1..];
    var rest := Split(t, c);
    var last := rest[|rest| - 1];
    SplitConsSeparator(s, c);
    assert s[|s| - |last|..] == t[|t| - |last|..];
    if c in t {
      assert s[|s| - |last| - 1] == t[|t| - |last| - 1];
    } else {
      SplitWithoutSeparator(t, c);
    }
  }

  lemma LastPieceAfterOther(s: string, c: char)
    requires s != [] && s[0] != c && LastPieceEnds(s[1..], c)
    ensures LastPieceEnds(s, c)
  {
    var t := s[1..];
    var rest := Split(t, c);
    var last := rest[|rest| - 1];
    SplitConsOther(s, c);
    if c in t {
      assert s[|s| - |last|..] == t[|t| - |last|..];
      assert s[|s| - |last| - 1] == t[|t| - |last| - 1];
    } else {
      assert c !in s by {
        assert forall k :: 1 <= k < |s| ==> s[k] == t[k - 1];
      }
      SplitWithoutSeparator(s, c);
    }
  }

  /** The last segment is empty exactly when the string is empty or ends with the separator. */
  lemma LastSegmentEmpty(s: string, c: char)
    ensures LastSegment(s, c) == [] <==> s == [] || s[|s| - 1] == c
  {
    var r := LastSegment(s, c);
    if r != [] && s != [] {
      assert r[|r| - 1] == s[|s| - 1];
    }
  }

  /**
    A suffix without `c` that is all of `s` or follows a `c` is the last
    segment: the contract of `LastSegment` pins it down.
   */
  lemma LastSegmentUnique(s: string, c: char, t: string)
    requires |t| <= |s| && s[|s| - |t|..] == t && c !in t
    requires |t| == |s| || s[|s| - |t| - 1] == c
    ensures LastSegment(s, c) == t
  {
    var r := LastSegment(s, c);
    SuffixHolds(s, t, |s| - |r| - 1);
    SuffixHolds(s, r, |s| - |t| - 1);
    assert |r| == |t|;
  }

  /** A character at a position inside a suffix belongs to that suffix. */
  lemma SuffixHolds(s: string, b: string, i: int)
    ensures |b| <= |s| && s[|s| - |b|..] == b && |s| - |b| <= i < |s| ==> s[i] in b
  {
    if |b| <= |s| && s[|s| - |b|..] == b && |s| - |b| <= i < |s| {
      assert s[i] == b[i - (|s| - |b|)];
    }
  }

  lemma {:induction false} JoinEndsWithLast(parts: seq<string>, sep: string)
    requires |parts| >= 1
    ensures |parts[|parts| - 1]| <= |Join(parts, sep)|
    ensures Join(parts, sep)[|Join(parts, sep)| - |parts[|parts| - 1]|..] == parts[|parts| - 1]
    decreases |parts|
  {
    if |parts| > 1 {
      JoinEndsWithLast(parts[1..], sep);
      var j := Join(parts[1..], sep);
      assert Join(parts, sep) == (parts[0] + sep) + j;
    }
  }

  /** ASCII lowering commutes with taking the last segment at a non-letter separator. */
  lemma {:induction false} LastSegmentToLower(s: string, c: char)
    requires LowerChar(c) == c && !('a' <= c <= 'z')
    ensures LastSegment(ToLower(s), c) == ToLower(LastSegment(s, c))
  {
    SplitToLower(s, c);
    LowerEachLast(Split(s, c));
  }

  /** Every piece lowered. */
  function LowerEach(parts: seq<string>): (r: seq<string>)
    ensures |r| == |parts|
  {
    if parts == [] then [] else [ToLower(parts[0])] + LowerEach(parts[1..])
  }

  lemma {:induction false} LowerEachLast(parts: seq<string>)
    requires |parts| >= 1
    ensures LowerEach(parts)[|parts| - 1] == ToLower(parts[|parts| - 1])
    decreases |parts|
  {
    if |parts| > 1 {
      LowerEachLast(parts[1..]);
    }
  }

  /** Splitting a lowered string at a non-letter gives the lowered pieces. */
  lemma {:induction false} SplitToLower(s: string, c: char)
    requires LowerChar(c) == c && !('a' <= c <= 'z')
    ensures Split(ToLower(s), c) == LowerEach(Split(s, c))
    decreases |s|
  {
    if s != [] {
      var t := ToLower(s);
      assert t[0] == LowerChar(s[0]) && t[1..] == ToLower(s[1..]);
      SplitToLower(s[1..], c);
      var rest := Split(s[1..], c);
      if s[0] == c {
        assert Split(s, c) == [""] + rest;
        assert LowerEach([""] + rest) == [""] + LowerEach(rest);
      } else {
        assert LowerChar(s[0]) != c;
        var head := [s[0]] + rest[0];
        assert Split(s, c) == [head] + rest[1..];
        assert ToLower(head) == [LowerChar(s[0])] + ToLower(rest[0]);
        assert LowerEach([head] + rest[1..]) == [ToLower(head)] + LowerEach(rest[1..]);
      }
    }
  }

  /** `s.split(/\s+/)`: pieces between maximal runs of whitespace. */
  function SplitWords(s: string): (words: seq<string>)
    ensures |words| >= 1
    decreases |s|
  {
    if s == [] then [""]
    else if IsWhitespace(s[0]) then [""] + SplitWords(TrimStart(s[1..]))
    else
      var rest := SplitWords(s[1..]);
      [[s[0]] + rest[0]] + rest[1..]
  }

  lemma {:induction false} SplitWordsAfterWord(w: string, t: string)
    requires NoWhitespace(w)
    ensures SplitWords(w + t) == [w + SplitWords(t)[0]] + SplitWords(t)[1..]
    decreases |w|
  {
    if w != [] {
      assert (w + t)[0] == w[0];
      assert (w + t)[1..] == w[1..] + t;
      SplitWordsAfterWord(w[1..], t);
      assert [w[0]] + (w[1..] + SplitWords(t)[0]) == w + SplitWords(t)[0];
    } else {
      assert w + t == t;
      assert w + SplitWords(t)[0] == SplitWords(t)[0];
      assert SplitWords(t) == [SplitWords(t)[0]] + SplitWords(t)[1..];
    }
  }

  /** Words joined by single spaces split back into the same words. */
  lemma {:induction false} SplitWordsJoin(words: seq<string>)
    requires |words| >= 1
    requires Words(words)
    ensures SplitWords(Join(words, " ")) == words
    decreases |words|
  {
    if |words| == 1 {
      SplitWordsAfterWord(words[0], "");
      assert words[0] + "" == words[0];
    } else {
      var tail := Join(words[1..], " ");
      SplitWordsJoin(words[1..]);
      JoinStartsWithFirst(words[1..], " ");
      assert tail[0] == words[1][0];
      assert TrimStart(tail) == tail;
      assert ([' '] + tail)[1..] == tail;
      assert SplitWords([' '] + tail) == [""] + SplitWords(tail);
      assert Join(words, " ") == words[0] + ([' '] + tail);
      SplitWordsAfterWord(words[0], [' '] + tail);
      assert words[0] + "" == words[0];
      assert words == [words[0]] + words[1..];
    }
  }

  /** Lower-case words joined by single spaces split back into the same words. */
  lemma LowerWordsSplit(words: seq<string>)
    requires |words| >= 1
    requires LowerWords(words)
    ensures SplitWords(Join(words, " ")) == words
  {
    assert Words(words);
    SplitWordsJoin(words);
  }

  /** Lower-case words without whitespace, joined by spaces, are already lowered and trimmed. */
  lemma JoinedWordsAreClean(words: seq<string>)
    requires |words| >= 1
    requires LowerWords(words)
    ensures Trim(ToLower(Join(words, " "))) == Join(words, " ")
  {
    var joined := Join(words, " ");
    JoinedWordsLowered(words);
    assert ToLower(joined) == joined;
    JoinedWordsStart(words);
    JoinedWordsEnd(words);
    TrimUnchanged(joined);
  }

  lemma JoinedWordsLowered(words: seq<string>)
    requires forall k :: 0 <= k < |words| ==> NoUpper(words[k])
    ensures ToLower(Join(words, " ")) == Join(words, " ")
  {
    assert NoUpper(" ");
    JoinNoUpper(words, " ");
    ToLowerNoUpper(Join(words, " "));
  }

  lemma JoinedWordsStart(words: seq<string>)
    requires |words| >= 1
    requires forall k :: 0 <= k < |words| ==> IsWord(words[k])
    ensures Join(words, " ") != [] && !IsWhitespace(Join(words, " ")[0])
  {
    JoinStartsWithFirst(words, " ");
    assert Join(words, " ")[0] == words[0][0];
  }

  lemma JoinedWordsEnd(words: seq<string>)
    requires |words| >= 1
    requires forall k :: 0 <= k < |words| ==> IsWord(words[k])
    ensures Join(words, " ") != [] && !IsWhitespace(Join(words, " ")[|Join(words, " ")| - 1])
  {
    var joined := Join(words, " ");
    JoinEndsWithLast(words, " ");
    var last := words[|words| - 1];
    assert joined[|joined| - 1] == last[|last| - 1];
  }

  lemma {:induction false} JoinStartsWithFirst(parts: seq<string>, sep: string)
    requires |parts| >= 1
    ensures parts[0] <= Join(parts, sep)
  {
  }

  /** Decimal rendering of a count, as a template literal interpolates a number. */
  function NatToString(n: nat): (r: string)
    ensures r != []
    ensures forall k :: 0 <= k < |r| ==> '0' <= r[k] <= '9'
    ensures DecimalValue(r) == n
    ensures r[0] == '0' ==> r == "0"
    decreases n
  {
    if n < 10 then [Digit(n)]
    else
      var high := NatToString(n / 10);
      assert (high + [Digit(n % 10)])[..|high|] == high;
      high + [Digit(n % 10)]
  }

  /** The number a run of decimal digits denotes, most significant digit first. */
  function DecimalValue(s: string): nat
    requires forall k :: 0 <= k < |s| ==> '0' <= s[k] <= '9'
  {
    if s == [] then 0 else 10 * DecimalValue(s[..|s| - 1]) + (s[|s| - 1] as int - '0' as int)
  }

  function Digit(d: nat): (c: char)
    requires d < 10
    ensures '0' <= c <= '9' && c as int - '0' as int == d
  {
    ('0' as int + d) as char
  }
}
