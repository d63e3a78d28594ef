/**
 The command-line lexer (crates/fslite-command/src/lexer.rs) and the quoting that
 re-joins argv words for it (crates/fslite-cli/src/main.rs).

 The peekable iterator of the source is the string still to be read.  The main
 result, `QuotingRoundTrips`, gives the outcome of tokenizing a quoted line for
 every list of words.
 */
module Lexer {
  import opened Common

  const MAX_LINE_LEN: nat := 65536

  datatype Token = Word(text: string) | Flag(name: string, value: Option<string>)

  datatype LexError =
    | UnterminatedQuote
    | InvalidEscape(escaped: char)
    | NulByte
    | TooLong(max: nat, actual: nat)
    | UnsupportedMetacharacter(meta: char)

  /** Unicode White_Space, as `char::is_whitespace` tests it. */
  predicate IsWhitespace(c: char) {
    var n := c as int;
    0x9 <= n <= 0xD || n == 0x20 || n == 0x85 || n == 0xA0 || n == 0x1680 || 0x2000 <= n <= 0x200A ||
    n == 0x2028 || n == 0x2029 || n == 0x202F || n == 0x205F || n == 0x3000
  }

  predicate IsMeta(c: char) { c in "|;&<>`" }

  /** `contains("$(")`. */
  predicate HasDollarParen(s: string) {
    |s| >= 2 && ((s[0] == '$' && s[1] == '(') || HasDollarParen(s[1..]))
  }

  /** What was read, and the input after it. */
  type Reading = Result<(string, string), LexError>

  function Prepend(read: string, r: Reading): Reading {
    if r.Ok? then Ok((read + r.value.0, r.value.1)) else r
  }

  lemma PrependTwice(a: string, b: string, r: Reading)
    ensures Prepend(a, Prepend(b, r)) == Prepend(a + b, r)
  {
    if r.Ok? { assert a + (b + r.value.0) == a + b + r.value.0; }
  }

  lemma PrependNothing(r: Reading)
    ensures Prepend("", r) == r
  {
    if r.Ok? { assert "" + r.value.0 == r.value.0; }
  }

  // --- the readers -----------------------------------------------------------

  function SingleQuoted(chars: string): (r: Reading)
    ensures r.Ok? ==> |r.value.1| < |chars|
  {
    if chars == "" then Err(UnterminatedQuote)
    else if chars[0] == '\'' then Ok(("", chars[1..]))
    else Prepend([chars[0]], SingleQuoted(chars[1..]))
  }

  function Unescape(c: char): Option<char> {
    match c
    case 'n' => Some('\n')
    case 't' => Some('\t')
    case '"' => Some('"')
    case '\\' => Some('\\')
    case _ => None
  }

  function DoubleQuoted(chars: string): (r: Reading)
    ensures r.Ok? ==> |r.value.1| < |chars|
  {
    if chars == "" then Err(UnterminatedQuote)
    else if chars[0] == '"' then Ok(("", chars[1..]))
    else if chars[0] == '\\' then
      if |chars| == 1 then Err(UnterminatedQuote)
      else if Unescape(chars[1]).None? then Err(InvalidEscape(chars[1]))
      else Prepend([Unescape(chars[1]).value], DoubleQuoted(chars[2..]))
    else Prepend([chars[0]], DoubleQuoted(chars[1..]))
  }

  function WordFrom(chars: string, started: bool): (r: Reading)
    ensures r.Ok? ==> |r.value.1| <= |chars| && (chars != "" && !IsWhitespace(chars[0]) ==> |r.value.1| < |chars|)
    decreases |chars|
  {
    if chars == "" || IsWhitespace(chars[0]) then Ok(("", chars))
    else if IsMeta(chars[0]) && started then Err(UnsupportedMetacharacter(chars[0]))
    else if chars[0] == '\'' then
      var q := SingleQuoted(chars[1..]);
      if q.Err? then q else Prepend(q.value.0, WordFrom(q.value.1, true))
    else if chars[0] == '"' then
      var q := DoubleQuoted(chars[1..]);
      if q.Err? then q else Prepend(q.value.0, WordFrom(q.value.1, true))
    else Prepend([chars[0]], WordFrom(chars[1..], true))
  }

  method ReadSingleQuoted(input: string) returns (r: Reading)
    ensures r == SingleQuoted(input)
  {
    var chars, content := input, "";
    PrependNothing(SingleQuoted(input));
    while chars != ""
      invariant Prepend(content, SingleQuoted(chars)) == SingleQuoted(input)
      decreases |chars|
    {
      var ch := chars[0];
      PrependTwice(content, [ch], SingleQuoted(chars[1..]));
      chars := chars[1..];
      if ch == '\'' {
        assert content + "" == content;
        return Ok((content, chars));
      }
      content := content + [ch];
    }
    return Err(UnterminatedQuote);
  }

  method ReadDoubleQuoted(input: string) returns (r: Reading)
    ensures r == DoubleQuoted(input)
  {
    var chars, content := input, "";
    PrependNothing(DoubleQuoted(input));
    while chars != ""
      invariant Prepend(content, DoubleQuoted(chars)) == DoubleQuoted(input)
      decreases |chars|
    {
      var ch := chars[0];
      if ch == '"' {
        assert content + "" == content;
        return Ok((content, chars[1..]));
      }
      if ch == '\\' {
        if |chars| == 1 { return Err(UnterminatedQuote); }
        var plain := Unescape(chars[1]);
        if plain.None? { return Err(InvalidEscape(chars[1])); }
        PrependTwice(content, [plain.value], DoubleQuoted(chars[2..]));
        content := content + [plain.value];
        chars := chars[2..];
      } else {
        PrependTwice(content, [ch], DoubleQuoted(chars[1..]));
        content := content + [ch];
        chars := chars[1..];
      }
    }
    return Err(UnterminatedQuote);
  }

  method ReadWord(input: string) returns (r: Reading)
    ensures r == WordFrom(input, false)
  {
    var chars, word, started := input, "", false;
    PrependNothing(WordFrom(input, false));
    while chars != ""
      invariant Prepend(word, WordFrom(chars, started)) == WordFrom(input, false)
      decreases |chars|
    {
      var ch := chars[0];
      if IsWhitespace(ch) { break; }
      if IsMeta(ch) && started { return Err(UnsupportedMetacharacter(ch)); }
      if ch == '\'' || ch == '"' {
        var quoted;
        if ch == '\'' { quoted := ReadSingleQuoted(chars[1..]); } else { quoted := ReadDoubleQuoted(chars[1..]); }
        if quoted.Err? { return quoted; }
        PrependTwice(word, quoted.value.0, WordFrom(quoted.value.1, true));
        word, chars := word + quoted.value.0, quoted.value.1;
      } else {
        PrependTwice(word, [ch], WordFrom(chars[1..], true));
        word, chars := word + [ch], chars[1..];
      }
      started := true;
    }
    assert word + "" == word;
    return Ok((word, chars));
  }

  // --- tokens ----------------------------------------------------------------

  function Find(s: string, c: char): (i: nat)
    ensures i <= |s| && (i < |s| ==> s[i] == c) && c !in s[..i]
  {
    if s == "" || s[0] == c then 0
    else
      var rest := Find(s[1..], c);
      assert s[..rest + 1] == [s[0]] + s[1..][..rest];
      1 + rest
  }

  function Classify(word: string): Token {
    if |word| >= 2 && word[..2] == "--" then
      var rest := word[2..];
      var i := Find(rest, '=');
      if i < |rest| then Flag(rest[..i], Some(rest[i + 1..])) else Flag(rest, None)
    else Word(word)
  }

  /** The word a token was read from. */
  function Spelling(token: Token): string {
    match token
    case Word(text) => text
    case Flag(name, None) => "--" + name
    case Flag(name, Some(value)) => "--" + name + "=" + value
  }

  /** Classifying loses nothing: distinct words give distinct tokens. */
  lemma ClassifyKeepsSpelling(word: string)
    ensures Spelling(Classify(word)) == word
  {
    if |word| >= 2 && word[..2] == "--" {
      var rest := word[2..];
      var i := Find(rest, '=');
      assert word == "--" + rest;
      if i < |rest| { assert rest == rest[..i] + "=" + rest[i + 1..]; }
    }
  }

  function TokensFrom(chars: string): Result<seq<Token>, LexError>
    decreases |chars|
  {
    if chars == "" then Ok([])
    else if IsWhitespace(chars[0]) then TokensFrom(chars[1..])
    else if IsMeta(chars[0]) then Err(UnsupportedMetacharacter(chars[0]))
    else
      var word := WordFrom(chars, false);
      if word.Err? then Err(word.error)
      else
        var rest := TokensFrom(word.value.1);
        if rest.Err? then rest else Ok([Classify(word.value.0)] + rest.value)
  }

  function Tokens(line: string): Result<seq<Token>, LexError> {
    if Utf8Len(line) > MAX_LINE_LEN then Err(TooLong(MAX_LINE_LEN, Utf8Len(line)))
    else if '\0' in line then Err(NulByte)
    else if HasDollarParen(line) then Err(UnsupportedMetacharacter('$'))
    else TokensFrom(line)
  }

  method Tokenize(line: string) returns (r: Result<seq<Token>, LexError>)
    ensures r == Tokens(line)
  {
    if Utf8Len(line) > MAX_LINE_LEN { return Err(TooLong(MAX_LINE_LEN, Utf8Len(line))); }
    if '\0' in line { return Err(NulByte); }
    if HasDollarParen(line) { return Err(UnsupportedMetacharacter('$')); }
    var chars, tokens := line, [];
    if TokensFrom(line).Ok? { assert tokens + TokensFrom(line).value == TokensFrom(line).value; }
    while chars != ""
      invariant TokensFrom(line) == (var rest := TokensFrom(chars); if rest.Err? then rest else Ok(tokens + rest.value))
      decreases |chars|
    {
      var ch := chars[0];
      if IsWhitespace(ch) {
        chars := chars[1..];
      } else if IsMeta(ch) {
        return Err(UnsupportedMetacharacter(ch));
      } else {
        var word := ReadWord(chars);
        if word.Err? { return Err(word.error); }
        ghost var rest := TokensFrom(word.value.1);
        if rest.Ok? {
          assert tokens + ([Classify(word.value.0)] + rest.value) == tokens + [Classify(word.value.0)] + rest.value;
        }
        tokens := tokens + [Classify(word.value.0)];
        chars := word.value.1;
      }
    }
    assert tokens + [] == tokens;
    return Ok(tokens);
  }

  // --- quoting ---------------------------------------------------------------

  predicate NeedsQuote(c: char) { IsWhitespace(c) || c == '\'' || c == '"' || IsMeta(c) }

  predicate NeedsQuoting(word: string) { word == "" || exists i :: 0 <= i < |word| && NeedsQuote(word[i]) }

  function Escape(word: string): string {
    if word == "" then ""
    else (if word[0] == '"' || word[0] == '\\' then ['\\', word[0]] else [word[0]]) + Escape(word[1..])
  }

  function Quoted(word: string): string {
    if !NeedsQuoting(word) then word
    else if '\'' !in word then "'" + word + "'"
    else "\"" + Escape(word) + "\""
  }

  lemma {:induction false} EscapeLast(word: string, c: char)
    ensures Escape(word + [c]) == Escape(word) + (if c == '"' || c == '\\' then ['\\', c] else [c])
  {
    if word == "" {
      assert word + [c] == [c] && [c][1..] == "";
    } else {
      assert (word + [c])[1..] == word[1..] + [c];
      EscapeLast(word[1..], c);
    }
  }

  method QuoteWord(word: string) returns (quoted: string)
    ensures quoted == Quoted(word)
  {
    if !NeedsQuoting(word) { return word; }
    if '\'' !in word { return "'" + word + "'"; }
    quoted := "\"";
    for i := 0 to |word|
      invariant quoted == "\"" + Escape(word[..i])
    {
      EscapeLast(word[..i], word[i]);
      assert word[..i + 1] == word[..i] + [word[i]];
      if word[i] == '"' || word[i] == '\\' { quoted := quoted + "\\"; }
      quoted := quoted + [word[i]];
    }
    assert word[..|word|] == word;
    quoted := quoted + "\"";
  }

  /** `quote_line`: the quoted words joined by single spaces. */
  function QuotedLine(words: seq<string>): string {
    if words == [] then ""
    else if |words| == 1 then Quoted(words[0])
    else Quoted(words[0]) + " " + QuotedLine(words[1..])
  }

  // --- a quoted word reads back as itself ------------------------------------

  /** Input at which a word ends. */
  predicate WordEnds(tail: string) { tail == "" || IsWhitespace(tail[0]) }

  lemma {:induction false} PlainReads(word: string, tail: string, started: bool)
    requires WordEnds(tail) && forall i :: 0 <= i < |word| ==> !NeedsQuote(word[i])
    ensures WordFrom(word + tail, started) == Ok((word, tail))
    decreases |word|
  {
    if word == "" {
      assert word + tail == tail;
    } else {
      assert (word + tail)[1..] == word[1..] + tail;
      PlainReads(word[1..], tail, true);
      assert [word[0]] + word[1..] == word;
    }
  }

  lemma {:induction false} SingleReads(word: string, tail: string)
    requires '\'' !in word
    ensures SingleQuoted(word + "'" + tail) == Ok((word, tail))
  {
    if word == "" {
      assert word + "'" + tail == "'" + tail;
    } else {
      assert (word + "'" + tail)[1..] == word[1..] + "'" + tail;
      SingleReads(word[1..], tail);
      assert [word[0]] + word[1..] == word;
    }
  }

  /** One escaped or plain character inside double quotes. */
  lemma EscapedReads(c: char, rest: string)
    ensures DoubleQuoted((if c == '"' || c == '\\' then ['\\', c] else [c]) + rest) == Prepend([c], DoubleQuoted(rest))
  {
    if c == '"' || c == '\\' {
      var s := ['\\', c] + rest;
      assert s[0] == '\\' && s[1] == c && s[2..] == rest;
    } else {
      var s := [c] + rest;
      assert s[0] == c && s[1..] == rest;
    }
  }

  lemma {:induction false} DoubleReads(word: string, tail: string)
    ensures DoubleQuoted(Escape(word) + "\"" + tail) == Ok((word, tail))
  {
    var s := Escape(word) + "\"" + tail;
    if word == "" {
      assert s == "\"" + tail;
    } else {
      DoubleReads(word[1..], tail);
      var c, rest := word[0], Escape(word[1..]) + "\"" + tail;
      EscapedReads(c, rest);
      assert s == (if c == '"' || c == '\\' then ['\\', c] else [c]) + rest;
      assert [word[0]] + word[1..] == word;
    }
  }

  lemma QuoteReads(quote: char, body: string, word: string, tail: string)
    requires WordEnds(tail) && (quote == '\'' || quote == '"')
    requires (if quote == '\'' then SingleQuoted(body) else DoubleQuoted(body)) == Ok((word, tail))
    ensures WordFrom([quote] + body, false) == Ok((word, tail))
  {
    assert ([quote] + body)[1..] == body;
    assert WordFrom(tail, true) == Ok(("", tail)) && word + "" == word;
  }

  lemma QuotedReads(word: string, tail: string)
    requires WordEnds(tail)
    ensures WordFrom(Quoted(word) + tail, false) == Ok((word, tail))
    ensures Quoted(word) != "" && !IsWhitespace(Quoted(word)[0]) && !IsMeta(Quoted(word)[0])
  {
    if !NeedsQuoting(word) {
      PlainReads(word, tail, false);
      assert !NeedsQuote(word[0]);
    } else if '\'' !in word {
      SingleReads(word, tail);
      QuoteReads('\'', word + "'" + tail, word, tail);
      assert Quoted(word) + tail == ['\''] + (word + "'" + tail);
    } else {
      DoubleReads(word, tail);
      QuoteReads('"', Escape(word) + "\"" + tail, word, tail);
      assert Quoted(word) + tail == ['"'] + (Escape(word) + "\"" + tail);
    }
  }

  function ClassifyAll(words: seq<string>): seq<Token> {
    seq(|words|, i requires 0 <= i < |words| => Classify(words[i]))
  }

  lemma TokenReads(word: string, tail: string)
    requires WordEnds(tail)
    ensures var rest := TokensFrom(tail);
            rest.Ok? ==> TokensFrom(Quoted(word) + tail) == Ok([Classify(word)] + rest.value)
  {
    QuotedReads(word, tail);
  }

  lemma SpaceIsSkipped(rest: string)
    ensures TokensFrom(" " + rest) == TokensFrom(rest) && WordEnds(" " + rest)
  {
    assert (" " + rest)[1..] == rest;
  }

  lemma {:induction false} LineReads(words: seq<string>)
    ensures TokensFrom(QuotedLine(words)) == Ok(ClassifyAll(words))
  {
    hide Classify, Quoted, NeedsQuoting;
    if words == [] {
      assert ClassifyAll(words) == [];
    } else {
      var line, rest := QuotedLine(words), QuotedLine(words[1..]);
      LineReads(words[1..]);
      assert ClassifyAll(words) == [Classify(words[0])] + ClassifyAll(words[1..]);
      if |words| == 1 {
        assert words[1..] == [] && Quoted(words[0]) + "" == line;
        assert ClassifyAll([]) == [] && TokensFrom("") == Ok([]);
        TokenReads(words[0], "");
      } else {
        var tail := " " + rest;
        SpaceIsSkipped(rest);
        assert Quoted(words[0]) + tail == line;
        TokenReads(words[0], tail);
      }
    }
  }

  // --- what the two whole-line checks see ------------------------------------

  lemma {:induction false} DollarParenJoin(a: string, b: string)
    ensures HasDollarParen(a + b) <==>
            HasDollarParen(a) || HasDollarParen(b) || (a != "" && b != "" && a[|a| - 1] == '$' && b[0] == '(')
  {
    if a == "" {
      assert a + b == b;
    } else {
      assert (a + b)[1..] == a[1..] + b;
      DollarParenJoin(a[1..], b);
    }
  }

  lemma {:induction false} EscapeKeepsChecks(word: string)
    ensures HasDollarParen(Escape(word)) <==> HasDollarParen(word)
    ensures '\0' in Escape(word) <==> '\0' in word
    ensures word != "" ==> Escape(word) != "" && (Escape(word)[0] == '(' <==> word[0] == '(')
  {
    if word != "" {
      EscapeKeepsChecks(word[1..]);
      var head := if word[0] == '"' || word[0] == '\\' then ['\\', word[0]] else [word[0]];
      assert !HasDollarParen(head) && !HasDollarParen([word[0]]);
      DollarParenJoin(head, Escape(word[1..]));
      DollarParenJoin([word[0]], word[1..]);
      assert word == [word[0]] + word[1..];
    }
  }

  lemma QuotedKeepsChecks(word: string)
    ensures HasDollarParen(Quoted(word)) <==> HasDollarParen(word)
    ensures '\0' in Quoted(word) <==> '\0' in word
  {
    EscapeKeepsChecks(word);
    if NeedsQuoting(word) {
      var quote, body := if '\'' !in word then "'" else "\"", if '\'' !in word then word else Escape(word);
      assert Quoted(word) == quote + (body + quote);
      DollarParenJoin(body, quote);
      DollarParenJoin(quote, body + quote);
    }
  }

  predicate AnyDollarParen(words: seq<string>) { exists i :: 0 <= i < |words| && HasDollarParen(words[i]) }

  predicate AnyNul(words: seq<string>) { exists i :: 0 <= i < |words| && '\0' in words[i] }

  lemma FirstOrRest(words: seq<string>)
    requires words != []
    ensures AnyDollarParen(words) <==> HasDollarParen(words[0]) || AnyDollarParen(words[1..])
    ensures AnyNul(words) <==> '\0' in words[0] || AnyNul(words[1..])
  {
    assert forall i :: 0 < i < |words| ==> words[i] == words[1..][i - 1];
    assert forall i :: 0 <= i < |words[1..]| ==> words[1..][i] == words[i + 1];
  }

  lemma SpaceJoins(a: string, b: string)
    ensures HasDollarParen(a + " " + b) <==> HasDollarParen(a) || HasDollarParen(b)
    ensures '\0' in a + " " + b <==> '\0' in a || '\0' in b
  {
    assert a + " " + b == a + (" " + b);
    DollarParenJoin(" ", b);
    DollarParenJoin(a, " " + b);
  }

  lemma {:induction false} LineKeepsChecks(words: seq<string>)
    ensures HasDollarParen(QuotedLine(words)) <==> AnyDollarParen(words)
    ensures '\0' in QuotedLine(words) <==> AnyNul(words)
  {
    if words != [] {
      LineKeepsChecks(words[1..]);
      QuotedKeepsChecks(words[0]);
      FirstOrRest(words);
      if |words| > 1 { SpaceJoins(Quoted(words[0]), QuotedLine(words[1..])); }
    }
  }

  /**
   Tokenizing a quoted line gives back exactly the classified words, unless the
   line is too long or a word holds NUL or `$(`; those three are reported as such.
   */
  lemma QuotingRoundTrips(words: seq<string>)
    ensures var line := QuotedLine(words);
            Tokens(line) ==
            if Utf8Len(line) > MAX_LINE_LEN then Err(TooLong(MAX_LINE_LEN, Utf8Len(line)))
            else if AnyNul(words) then Err(NulByte)
            else if AnyDollarParen(words) then Err(UnsupportedMetacharacter('$'))
            else Ok(ClassifyAll(words))
  {
    LineReads(words);
    LineKeepsChecks(words);
  }
}
