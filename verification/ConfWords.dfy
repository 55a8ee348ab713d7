/** How one line of an Apache configuration reads: words, sections, quoting (`src/apache.rs`). */
module ConfWords {
  import opened Text
  import opened ConfText

  // ---- words ----

  predicate IsQuote(c: char) {
    c == '"' || c == '\''
  }

  /** A quoted word, from just inside its opening quote, and what is left after it. */
  datatype Quoted = Quoted(word: string, rest: string)

  /** Inside quotes a backslash escapes the quote or another backslash. */
  predicate Escapes(s: string, quote: char) {
    |s| > 1 && s[0] == '\\' && (s[1] == quote || s[1] == '\\')
  }

  function ReadQuoted(s: string, quote: char): (q: Quoted)
    ensures |q.rest| <= |s|
    decreases |s|
  {
    if s == "" then Quoted("", "")
    else if Escapes(s, quote) then
      var q := ReadQuoted(s[2..], quote);
      Quoted([s[1]] + q.word, q.rest)
    else if s[0] == quote then Quoted("", s[1..])
    else
      var q := ReadQuoted(s[1..], quote);
      Quoted([s[0]] + q.word, q.rest)
  }

  /** A directive's words: whitespace separates them, and one that starts with a quote runs to
      the matching quote. */
  function Words(text: string): seq<string>
    decreases |text|
  {
    TrimStartShrinks(text);
    var s := TrimStart(text);
    if s == "" then []
    else if IsQuote(s[0]) then
      var q := ReadQuoted(s[1..], s[0]);
      [q.word] + Words(q.rest)
    else
      [s[..WordEnd(s)]] + Words(s[WordEnd(s)..])
  }

  /** Reads a quoted word character by character. */
  method TakeQuoted(s: string, quote: char) returns (word: string, rest: string)
    ensures Quoted(word, rest) == ReadQuoted(s, quote)
  {
    word, rest := "", s;
    assert "" + ReadQuoted(s, quote).word == ReadQuoted(s, quote).word;
    while rest != ""
      invariant ReadQuoted(s, quote)
             == Quoted(word + ReadQuoted(rest, quote).word, ReadQuoted(rest, quote).rest)
      decreases |rest|
    {
      if Escapes(rest, quote) {
        word, rest := word + [rest[1]], rest[2..];
      } else if rest[0] == quote {
        assert word + "" == word;
        return word, rest[1..];
      } else {
        word, rest := word + [rest[0]], rest[1..];
      }
    }
    assert word + "" == word;
  }

  /** Reads a bare word character by character. */
  method TakeWord(s: string) returns (word: string, rest: string)
    ensures word == s[..WordEnd(s)] && rest == s[WordEnd(s)..]
  {
    var n := 0;
    while n < |s| && !IsSpace(s[n])
      invariant n <= |s| && n + WordEnd(s[n..]) == WordEnd(s)
    {
      assert s[n..][1..] == s[n + 1..];
      n := n + 1;
    }
    return s[..n], s[n..];
  }

  /** One word, and what is left. */
  lemma WordsStep(text: string, word: string, rest: string)
    requires TrimStart(text) != ""
    requires if IsQuote(TrimStart(text)[0]) then
               Quoted(word, rest) == ReadQuoted(TrimStart(text)[1..], TrimStart(text)[0])
             else
               var n := WordEnd(TrimStart(text));
               word == TrimStart(text)[..n] && rest == TrimStart(text)[n..]
    ensures |rest| < |text| && Words(text) == [word] + Words(rest)
  {
    TrimStartShrinks(text);
  }

  /** Splits a directive's arguments. */
  method SplitWords(text: string) returns (out: seq<string>)
    ensures out == Words(text)
  {
    out := [];
    var rest := text;
    while TrimStart(rest) != ""
      invariant out + Words(rest) == Words(text)
      decreases |rest|
    {
      hide Words, TrimStart, WordEnd, ReadQuoted;
      var s, before := TrimStart(rest), rest;
      var word;
      if IsQuote(s[0]) {
        word, rest := TakeQuoted(s[1..], s[0]);
      } else {
        word, rest := TakeWord(s);
      }
      WordsStep(before, word, rest);
      assert out + ([word] + Words(rest)) == (out + [word]) + Words(rest);
      out := out + [word];
    }
    assert Words(rest) == [];
  }

  // ---- quoting for the core ----

  /** `str::replace` of one character. */
  function Replace(s: string, c: char, with: string): string {
    if s == "" then "" else (if s[0] == c then with else [s[0]]) + Replace(s[1..], c, with)
  }

  /** A text as one double-quoted argument the core reads. */
  function ConfQuoted(text: string): string {
    "\"" + Replace(Replace(text, '\\', "\\\\"), '"', "\\\"") + "\""
  }

  lemma {:induction false} ReplaceConcat(s: string, t: string, c: char, with: string)
    ensures Replace(s + t, c, with) == Replace(s, c, with) + Replace(t, c, with)
  {
    if s == "" {
      assert s + t == t;
    } else {
      assert (s + t)[1..] == s[1..] + t;
      ReplaceConcat(s[1..], t, c, with);
    }
  }

  /** What one character is written as. */
  function Escaped(c: char): string {
    if c == '\\' then "\\\\" else if c == '"' then "\\\"" else [c]
  }

  lemma EscapeOne(c: char, rest: string)
    ensures Replace(Replace([c] + rest, '\\', "\\\\"), '"', "\\\"")
         == Escaped(c) + Replace(Replace(rest, '\\', "\\\\"), '"', "\\\"")
  {
    hide Replace, Escaped;
    var first := if c == '\\' then "\\\\" else [c];
    ReplaceCons(c, rest, '\\', "\\\\");
    ReplaceConcat(first, Replace(rest, '\\', "\\\\"), '"', "\\\"");
    EscapedIs(c);
  }

  lemma ReplaceCons(first: char, rest: string, c: char, with: string)
    ensures Replace([first] + rest, c, with) == (if first == c then with else [first]) + Replace(rest, c, with)
  {
    assert ([first] + rest)[1..] == rest;
  }

  lemma EscapedIs(c: char)
    ensures Replace(if c == '\\' then "\\\\" else [c], '"', "\\\"") == Escaped(c)
  {
    if c == '\\' {
      assert "\\\\"[1..] == "\\" && "\\"[1..] == "";
    } else {
      assert [c][1..] == "";
    }
  }

  lemma ReadEscaped(c: char, tail: string)
    ensures ReadQuoted(Escaped(c) + tail, '"')
         == Quoted([c] + ReadQuoted(tail, '"').word, ReadQuoted(tail, '"').rest)
  {
    var s := Escaped(c) + tail;
    if c == '\\' || c == '"' {
      assert s[1] == c && s[2..] == tail;
    } else {
      assert s[0] == c && s[1..] == tail;
    }
  }

  /** Reading what was escaped gives it back, up to the closing quote. */
  lemma {:induction false} QuotedReadsBack(text: string, after: string)
    ensures ReadQuoted(Replace(Replace(text, '\\', "\\\\"), '"', "\\\"") + "\"" + after, '"')
         == Quoted(text, after)
  {
    if text == "" {
      var s := "" + "\"" + after;
      assert s[1..] == after;
    } else {
      hide Replace, ReadQuoted, Escaped;
      var body := Replace(Replace(text[1..], '\\', "\\\\"), '"', "\\\"");
      EscapeOne(text[0], text[1..]);
      assert [text[0]] + text[1..] == text;
      QuotedReadsBack(text[1..], after);
      var tail := body + "\"" + after;
      ReadEscaped(text[0], tail);
      assert Escaped(text[0]) + body + "\"" + after == Escaped(text[0]) + tail;
    }
  }

  /** Every text, quoted, is one word: itself. */
  lemma ConfQuotedIsOneWord(text: string)
    ensures Words(ConfQuoted(text)) == [text]
  {
    var body := Replace(Replace(text, '\\', "\\\\"), '"', "\\\"");
    var s := ConfQuoted(text);
    assert TrimStart(s) == s;
    assert s[1..] == body + "\"" + "";
    QuotedReadsBack(text, "");
    assert Words("") == [];
  }

  // ---- quoting for `mod_rewrite` ----

  /** The body of a quoted pattern: a quote, escaped or not, is written as `\x22`. */
  function RewriteBody(regex: string): string {
    if regex == "" then ""
    else if regex[0] == '\\' then
      if |regex| == 1 then "\\"
      else if regex[1] == '"' then "\\x22" + RewriteBody(regex[2..])
      else "\\" + [regex[1]] + RewriteBody(regex[2..])
    else if regex[0] == '"' then "\\x22" + RewriteBody(regex[1..])
    else [regex[0]] + RewriteBody(regex[1..])
  }

  /** A pattern as one double-quoted argument `mod_rewrite` reads. */
  method RewriteQuoted(regex: string) returns (out: string)
    ensures out == "\"(?:" + RewriteBody(regex) + ")\""
  {
    out := "\"(?:";
    var rest := regex;
    while rest != ""
      invariant out + RewriteBody(rest) == "\"(?:" + RewriteBody(regex)
      decreases |rest|
    {
      if rest[0] == '\\' {
        if |rest| == 1 {
          out := out + "\\";
          rest := "";
        } else if rest[1] == '"' {
          assert out + ("\\x22" + RewriteBody(rest[2..])) == (out + "\\x22") + RewriteBody(rest[2..]);
          out := out + "\\x22";
          rest := rest[2..];
        } else {
          var pair := "\\" + [rest[1]];
          assert out + (pair + RewriteBody(rest[2..])) == (out + pair) + RewriteBody(rest[2..]);
          out := out + pair;
          rest := rest[2..];
        }
      } else if rest[0] == '"' {
        assert out + ("\\x22" + RewriteBody(rest[1..])) == (out + "\\x22") + RewriteBody(rest[1..]);
        out := out + "\\x22";
        rest := rest[1..];
      } else {
        assert out + ([rest[0]] + RewriteBody(rest[1..])) == (out + [rest[0]]) + RewriteBody(rest[1..]);
        out := out + [rest[0]];
        rest := rest[1..];
      }
    }
    assert out + "" == out;
    out := out + ")\"";
  }

  /** A regex token, by what it matches: a character that stands for itself or is an operator, a
      quote however it is written, or any other escape. */
  datatype Token = Plain(c: char) | Quote | Escape(c: char) | Dangling

  predicate IsHexQuote(s: string) {
    |s| >= 4 && s[0] == '\\' && s[1] == 'x' && s[2] == '2' && s[3] == '2'
  }

  /** How many characters the first token takes, and what it is. */
  function TokenLength(s: string): (n: nat)
    requires s != ""
    ensures 0 < n <= |s|
  {
    if IsHexQuote(s) then 4 else if s[0] == '\\' && |s| > 1 then 2 else 1
  }

  function FirstToken(s: string): Token
    requires s != ""
  {
    if IsHexQuote(s) then Quote
    else if s[0] == '\\' then
      if |s| == 1 then Dangling else if s[1] == '"' then Quote else Escape(s[1])
    else if s[0] == '"' then Quote
    else Plain(s[0])
  }

  function Tokens(regex: string): seq<Token> {
    if regex == "" then [] else [FirstToken(regex)] + Tokens(regex[TokenLength(regex)..])
  }

  /** What is written holds no quote, so nothing in it can end the argument. */
  lemma {:induction false} RewriteBodyHasNoQuote(regex: string)
    ensures '"' !in RewriteBody(regex)
  {
    if regex == "" {
    } else if regex[0] == '\\' && |regex| > 1 {
      RewriteBodyHasNoQuote(regex[2..]);
    } else {
      RewriteBodyHasNoQuote(regex[1..]);
    }
  }

  lemma HexQuoteInFront(rest: string)
    ensures Tokens("\\x22" + rest) == [Quote] + Tokens(rest)
  {
    assert ("\\x22" + rest)[4..] == rest;
  }

  lemma EscapeInFront(c: char, rest: string)
    requires c != '"' && !IsHexQuote("\\" + [c] + rest)
    ensures Tokens("\\" + [c] + rest) == [Escape(c)] + Tokens(rest)
  {
    assert ("\\" + [c] + rest)[2..] == rest;
  }

  /** Writing changes no character but a quote, so what starts with `22` still does. */
  lemma BodyStartsTheSame(regex: string)
    ensures IsHexQuote("\\x" + RewriteBody(regex)) <==> IsHexQuote("\\x" + regex)
  {
    var body := RewriteBody(regex);
    if |regex| >= 2 && regex[0] == '2' {
      assert body == [regex[0]] + RewriteBody(regex[1..]);
      if regex[1] == '2' {
        assert RewriteBody(regex[1..]) == [regex[1]] + RewriteBody(regex[1..][1..]);
      }
    }
  }

  /** The written body is the same sequence of tokens. */
  lemma {:induction false} RewriteBodyKeepsTokens(regex: string)
    ensures Tokens(RewriteBody(regex)) == Tokens(regex)
    decreases |regex|
  {
    if regex == "" {
    } else if IsHexQuote(regex) {
      HexQuoteBody(regex);
      HexQuoteInFront(RewriteBody(regex[4..]));
      RewriteBodyKeepsTokens(regex[4..]);
    } else if regex[0] == '\\' && |regex| > 1 {
      RewriteBodyKeepsTokens(regex[2..]);
      if regex[1] == '"' {
        HexQuoteInFront(RewriteBody(regex[2..]));
      } else {
        if regex[1] == 'x' {
          BodyStartsTheSame(regex[2..]);
          assert "\\x" + regex[2..] == regex;
        }
        EscapeInFront(regex[1], RewriteBody(regex[2..]));
      }
    } else if regex[0] == '"' {
      RewriteBodyKeepsTokens(regex[1..]);
      HexQuoteInFront(RewriteBody(regex[1..]));
    } else if regex[0] != '\\' {
      RewriteBodyKeepsTokens(regex[1..]);
      assert ([regex[0]] + RewriteBody(regex[1..]))[1..] == RewriteBody(regex[1..]);
    }
  }

  lemma HexQuoteBody(regex: string)
    requires IsHexQuote(regex)
    ensures RewriteBody(regex) == "\\x22" + RewriteBody(regex[4..])
  {
    assert regex[2..][1..] == regex[3..] && regex[3..][1..] == regex[4..];
    assert RewriteBody(regex[3..]) == ['2'] + RewriteBody(regex[4..]);
    assert RewriteBody(regex[2..]) == ['2'] + RewriteBody(regex[3..]);
    assert RewriteBody(regex) == "\\" + ['x'] + RewriteBody(regex[2..]);
    assert "\\" + ['x'] + (['2'] + (['2'] + RewriteBody(regex[4..]))) == "\\x22" + RewriteBody(regex[4..]);
  }

  lemma SameTail(t: Token, x: seq<Token>, y: seq<Token>)
    ensures [t] + x == [t] + y <==> x == y
  {
    assert ([t] + x)[1..] == x && ([t] + y)[1..] == y;
  }

  /** The group's closing bracket stays a bracket exactly when the regex has no dangling
      backslash. */
  lemma {:induction false} ClosingBracketCloses(regex: string)
    ensures Tokens(regex + ")") == Tokens(regex) + [Plain(')')] <==> Dangling !in Tokens(regex)
    decreases |regex|
  {
    if regex == "" {
      assert regex + ")" == ")" && ")"[1..] == "";
    } else if regex == "\\" {
      LoneBackslash();
    } else {
      var n := TokenLength(regex);
      ClosingBracketCloses(regex[n..]);
      hide Tokens;
      BracketAfterToken(regex);
      SameTail(FirstToken(regex), Tokens(regex[n..] + ")"), Tokens(regex[n..]) + [Plain(')')]);
    }
  }

  lemma LoneBackslash()
    ensures Tokens("\\") == [Dangling] && |Tokens("\\" + ")")| == 1
  {
    assert "\\"[1..] == "" && ("\\" + ")")[2..] == "";
  }

  /** The first token does not see the bracket at the end. */
  lemma BracketAfterToken(regex: string)
    requires regex != "" && regex != "\\"
    ensures var n := TokenLength(regex);
            && Tokens(regex) == [FirstToken(regex)] + Tokens(regex[n..])
            && Tokens(regex) + [Plain(')')] == [FirstToken(regex)] + (Tokens(regex[n..]) + [Plain(')')])
            && Tokens(regex + ")") == [FirstToken(regex)] + Tokens(regex[n..] + ")")
            && FirstToken(regex) != Dangling
  {
    var n := TokenLength(regex);
    assert (regex + ")")[n..] == regex[n..] + ")";
  }

  /** The whole argument: no quote inside the outer two, and the group's own tokens around the
      regex's, for every regex with no dangling backslash. */
  lemma RewriteQuotedMeansTheRegex(regex: string)
    ensures '"' !in "(?:" + RewriteBody(regex) + ")"
    ensures Tokens(RewriteBody(regex) + ")") == Tokens(regex) + [Plain(')')]
       <==> Dangling !in Tokens(regex)
  {
    RewriteBodyHasNoQuote(regex);
    RewriteBodyKeepsTokens(regex);
    ClosingBracketCloses(RewriteBody(regex));
  }

  lemma {:induction false} ReadPlainQuoted(text: string, quote: char, rest: string)
    requires quote !in text && '\\' !in text && quote != '\\'
    ensures ReadQuoted(text + [quote] + rest, quote) == Quoted(text, rest)
  {
    var s := text + [quote] + rest;
    if text == "" {
      assert s[1..] == rest;
    } else {
      assert s[0] == text[0] && s[1..] == text[1..] + [quote] + rest && text == [text[0]] + text[1..];
      ReadPlainQuoted(text[1..], quote, rest);
    }
  }

  /** A text between quotes of either kind is one word, blanks and the other quote included. */
  lemma EitherQuoteReads(text: string, quote: char)
    requires (quote == '"' || quote == '\'') && quote !in text && '\\' !in text
    ensures Words([quote] + text + [quote]) == [text]
  {
    var s := [quote] + text + [quote];
    assert TrimStart(s) == s && s[1..] == text + [quote] + "";
    ReadPlainQuoted(text, quote, "");
    assert Words("") == [];
  }
}
