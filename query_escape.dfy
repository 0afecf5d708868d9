/**
  Escaping of user text embedded in a Drive query string literal `'...'`.
  Inside such a literal a backslash escapes the next character, so a
  quote must be written `\'` and a backslash `\\`.

  The search tool escapes with two `replace` calls, backslashes first and
  quotes second; the shared-drive lookup uses the quote `replace` alone.
  Both calls put a backslash in front of every occurrence of one
  character, which `BackslashBefore` states once.
 */
module QueryEscape {

  /**
    `s.replace(/x/g, "\\x")` for the character `c` written `x`: every `c`
    gets a backslash in front. With `c` a quote this is the quote escaper;
    with `c` a backslash it doubles every backslash.
   */
  function BackslashBefore(s: string, c: char): (r: string)
    ensures |r| >= |s|
    ensures c !in s ==> r == s
    decreases |s|
  {
    if s == [] then []
    else
      assert s == [s[0]] + s[1..];
      (if s[0] == c then ['\\', c] else [s[0]]) + BackslashBefore(s[1..], c)
  }

  /** The search tool's escaper: backslashes doubled, then quotes escaped. */
  function Escape(s: string): string {
    BackslashBefore(BackslashBefore(s, '\\'), '\'')
  }

  /** How the Drive query language reads a literal's body: `\x` stands for `x`. */
  function Unescape(s: string): string
    decreases |s|
  {
    if s == [] then []
    else if s[0] == '\\' && |s| >= 2 then [s[1]] + Unescape(s[2..])
    else [s[0]] + Unescape(s[1..])
  }

  /**
    The literal's body holds no quote that would end it early, and no
    trailing lone backslash that would escape the closing quote.
   */
  predicate NoBareQuote(s: string)
    decreases |s|
  {
    if s == [] then true
    else if s[0] == '\\' then |s| >= 2 && NoBareQuote(s[2..])
    else s[0] != '\'' && NoBareQuote(s[1..])
  }

  /** The text the search escaper writes for one character. */
  function EscapedChar(c: char): string {
    if c == '\\' then "\\\\" else if c == '\'' then "\\'" else [c]
  }

  lemma {:induction false} BackslashBeforeAppend(a: string, b: string, c: char)
    ensures BackslashBefore(a + b, c) == BackslashBefore(a, c) + BackslashBefore(b, c)
    decreases |a|
  {
    if a == [] {
      assert a + b == b;
    } else {
      assert (a + b)[0] == a[0];
      assert (a + b)[1..] == a[1..] + b;
      BackslashBeforeAppend(a[1..], b, c);
    }
  }

  /** The two-pass escaper treats the input one character at a time. */
  lemma EscapeCons(c: char, t: string)
    ensures Escape([c] + t) == EscapedChar(c) + Escape(t)
  {
    assert ([c] + t)[0] == c && ([c] + t)[1..] == t;
    var head := if c == '\\' then "\\\\" else [c];
    var doubled := BackslashBefore(t, '\\');
    assert BackslashBefore([c] + t, '\\') == head + doubled;
    BackslashBeforeAppend(head, doubled, '\'');
    if c == '\\' {
      assert BackslashBefore(head, '\'') == "\\" + BackslashBefore("\\", '\'');
    }
  }

  /** Reading back an escaped character yields the character. */
  lemma UnescapeCons(c: char, t: string)
    ensures Unescape(EscapedChar(c) + t) == [c] + Unescape(t)
    ensures NoBareQuote(EscapedChar(c) + t) == NoBareQuote(t)
  {
    var e := EscapedChar(c) + t;
    if c == '\\' || c == '\'' {
      assert e[0] == '\\' && e[1] == c && e[2..] == t;
    } else {
      assert e[0] == c && e[1..] == t;
    }
  }

  /**
    The search escaper is sound: its output never closes the literal early,
    and the query language reads back exactly the user's text.
   */
  lemma {:induction false} EscapeRoundTrip(s: string)
    ensures NoBareQuote(Escape(s))
    ensures Unescape(Escape(s)) == s
    decreases |s|
  {
    if s != [] {
      EscapeRoundTrip(s[1..]);
      EscapeCons(s[0], s[1..]);
      UnescapeCons(s[0], Escape(s[1..]));
      assert s == [s[0]] + s[1..];
    }
  }

  /** The quote-only escaper of the drive lookup is sound for names without a backslash. */
  lemma QuoteEscapeSoundWithoutBackslash(name: string)
    requires '\\' !in name
    ensures NoBareQuote(BackslashBefore(name, '\''))
    ensures Unescape(BackslashBefore(name, '\'')) == name
  {
    EscapeRoundTrip(name);
  }

  /**
    ... and unsound for every name with a backslash: either the literal is
    closed early or left open, or the query language reads back another name.
   */
  lemma QuoteEscapeUnsoundWithBackslash(name: string)
    requires '\\' in name
    ensures !(NoBareQuote(BackslashBefore(name, '\'')) && Unescape(BackslashBefore(name, '\'')) == name)
  {
    QuoteEscapeShrinks(name);
  }

  /**
    When the quote-only escaper's output is a well-formed literal body, the
    text read back is never longer than the input, and strictly shorter when
    the input holds a backslash: the backslash swallows the next character.
   */
  predicate QuoteEscapeShrinksAt(s: string) {
    var e := BackslashBefore(s, '\'');
    NoBareQuote(e) ==> |Unescape(e)| <= |s| && ('\\' in s ==> |Unescape(e)| < |s|)
  }

  lemma {:induction false} QuoteEscapeShrinks(s: string)
    ensures QuoteEscapeShrinksAt(s)
    decreases |s|
  {
    if s != [] {
      if s[0] != '\\' {
        QuoteEscapeShrinks(s[1..]);
        ShrinksAfterOther(s);
      } else if |s| >= 2 {
        QuoteEscapeShrinks(s[2..]);
        ShrinksAfterBackslash(s);
      }
    }
  }

  lemma ShrinksAfterOther(s: string)
    requires s != [] && s[0] != '\\' && QuoteEscapeShrinksAt(s[1..])
    ensures QuoteEscapeShrinksAt(s)
  {
    var t := s[1..];
    assert BackslashBefore(s, '\'') == EscapedChar(s[0]) + BackslashBefore(t, '\'');
    UnescapeCons(s[0], BackslashBefore(t, '\''));
    assert '\\' in s ==> '\\' in t;
  }

  lemma ShrinksAfterBackslash(s: string)
    requires |s| >= 2 && s[0] == '\\' && QuoteEscapeShrinksAt(s[2..])
    ensures QuoteEscapeShrinksAt(s)
  {
    var t2 := s[2..];
    var e2 := BackslashBefore(t2, '\'');
    var e := BackslashBefore(s, '\'');
    assert s[1..][1..] == t2;
    assert BackslashBefore(s[1..], '\'') == (if s[1] == '\'' then ['\\', '\''] else [s[1]]) + e2;
    if s[1] == '\'' {
      assert e == ['\\', '\\', '\''] + e2;
      assert e[2..] == ['\''] + e2;
      assert NoBareQuote(e) == NoBareQuote(e[2..]);
    } else {
      assert e == ['\\', s[1]] + e2;
      assert e[2..] == e2;
      assert Unescape(e) == [s[1]] + Unescape(e2);
      assert NoBareQuote(e) == NoBareQuote(e2);
    }
  }

  /** The name `Team\` leaves the closing quote of the lookup literal escaped. */
  lemma TrailingBackslashExample()
    ensures !NoBareQuote(BackslashBefore("Team\\", '\''))
  {
    assert BackslashBefore("Team\\", '\'') == "Team\\";
    assert NoBareQuote("Team\\") == NoBareQuote("\\");
  }
}
