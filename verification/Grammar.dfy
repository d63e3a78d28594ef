/**
 The language of the command line (crates/fslite-command/src/lexer.rs), as a grammar:
 blank-separated words, each a row of bare characters and quoted parts.  Every line is
 either spelled by it, and read as what it spells, or stops at a first fault.
 */
module Grammar {
  import opened Common
  import opened Lexer

  /** A character inside double quotes, as it is or behind a backslash. */
  datatype Char = Plain(c: char) | Escaped(c: char)

  datatype Part = Bare(c: char) | Single(body: string) | Double(chars: seq<Char>)

  predicate CharOk(i: Char) {
    match i
    case Plain(c) => c != '"' && c != '\\'
    case Escaped(c) => c in "nt\"\\"
  }

  predicate CharsOk(chars: seq<Char>) { forall i :: 0 <= i < |chars| ==> CharOk(chars[i]) }

  function SpeltChar(i: Char): string {
    match i
    case Plain(c) => [c]
    case Escaped(c) => ['\\', c]
  }

  function SaidChar(i: Char): char {
    match i
    case Plain(c) => c
    case Escaped(c) => if c == 'n' then '\n' else if c == 't' then '\t' else c
  }

  function SpeltChars(chars: seq<Char>): string {
    if chars == [] then "" else SpeltChar(chars[0]) + SpeltChars(chars[1..])
  }

  function SaidChars(chars: seq<Char>): string { seq(|chars|, i requires 0 <= i < |chars| => SaidChar(chars[i])) }

  predicate PartOk(p: Part) {
    match p
    case Bare(c) => !IsWhitespace(c) && c !in "'\"|;&<>`"
    case Single(body) => '\'' !in body
    case Double(chars) => CharsOk(chars)
  }

  predicate PartsOk(parts: seq<Part>) { forall i :: 0 <= i < |parts| ==> PartOk(parts[i]) }

  function Spelt(p: Part): string {
    match p
    case Bare(c) => [c]
    case Single(body) => "'" + body + "'"
    case Double(chars) => "\"" + SpeltChars(chars) + "\""
  }

  function Said(p: Part): string {
    match p
    case Bare(c) => [c]
    case Single(body) => body
    case Double(chars) => SaidChars(chars)
  }

  function SpeltParts(parts: seq<Part>): string {
    if parts == [] then "" else Spelt(parts[0]) + SpeltParts(parts[1..])
  }

  function SaidParts(parts: seq<Part>): string {
    if parts == [] then "" else Said(parts[0]) + SaidParts(parts[1..])
  }

  /** A word with the blanks before it. */
  datatype Piece = Piece(gap: string, parts: seq<Part>)

  predicate Blank(s: string) { forall i :: 0 <= i < |s| ==> IsWhitespace(s[i]) }

  /** Words, with blanks between any two of them. */
  predicate PiecesOk(pieces: seq<Piece>) {
    forall i :: 0 <= i < |pieces| ==>
      Blank(pieces[i].gap) && (i > 0 ==> pieces[i].gap != "") && pieces[i].parts != [] && PartsOk(pieces[i].parts)
  }

  function SpeltLine(pieces: seq<Piece>): string {
    if pieces == [] then "" else pieces[0].gap + SpeltParts(pieces[0].parts) + SpeltLine(pieces[1..])
  }

  function SaidLine(pieces: seq<Piece>): seq<string> {
    seq(|pieces|, i requires 0 <= i < |pieces| => SaidParts(pieces[i].parts))
  }

  // --- tokens ----------------------------------------------------------------

  lemma FirstEquals(name: string, rest: string)
    requires '=' !in name
    ensures Find(name + "=" + rest, '=') == |name|
  {
    var s := name + "=" + rest;
    var i := Find(s, '=');
    assert s[|name|] == '=';
    forall k | 0 <= k < |name| ensures s[k] != '=' { assert s[k] == name[k]; }
    forall k | 0 <= k < i ensures s[k] != '=' { assert s[..i][k] == s[k]; }
  }

  lemma FlagWithValue(word: string, name: string, value: string)
    requires '=' !in name && word == "--" + name + "=" + value
    ensures Classify(word) == Flag(name, Some(value))
  {
    assert word[..2] == "--" && word[2..] == name + "=" + value;
    FirstEquals(name, value);
    assert word[2..][..|name|] == name && word[2..][|name| + 1..] == value;
  }

  lemma FlagWithout(word: string, name: string)
    requires '=' !in name && word == "--" + name
    ensures Classify(word) == Flag(name, None)
  {
    assert word[..2] == "--" && word[2..] == name;
    var i := Find(name, '=');
    assert forall k :: 0 <= k < |name| ==> name[k] != '=';
  }

  /** A flag is `--name` or `--name=value`, cut at the first `=`; every other word is a word. */
  lemma ClassifyIs(word: string)
    ensures forall name, value :: Classify(word) == Flag(name, Some(value)) <==>
              '=' !in name && word == "--" + name + "=" + value
    ensures forall name :: Classify(word) == Flag(name, None) <==> '=' !in name && word == "--" + name
    ensures forall w :: Classify(word) == Word(w) <==> w == word && !("--" <= word)
  {
    ClassifyKeepsSpelling(word);
    var token := Classify(word);
    if token.Flag? {
      var rest := word[2..];
      var i := Find(rest, '=');
      assert rest[..|rest|] == rest;
    }
    forall name, value | '=' !in name && word == "--" + name + "=" + value
      ensures token == Flag(name, Some(value))
    {
      FlagWithValue(word, name, value);
    }
    forall name | '=' !in name && word == "--" + name ensures token == Flag(name, None) { FlagWithout(word, name); }
  }

  // --- what the grammar spells is read ---------------------------------------

  lemma {:induction false} CharsRead(chars: seq<Char>, tail: string)
    requires CharsOk(chars)
    ensures DoubleQuoted(SpeltChars(chars) + tail) == Prepend(SaidChars(chars), DoubleQuoted(tail))
    decreases |chars|
  {
    if chars == [] {
      assert SpeltChars(chars) + tail == tail && SaidChars(chars) == "";
      PrependNothing(DoubleQuoted(tail));
    } else {
      var rest := SpeltChars(chars[1..]) + tail;
      CharsRead(chars[1..], tail);
      CharRead(chars[0], rest);
      assert SpeltChars(chars) + tail == SpeltChar(chars[0]) + rest;
      assert SaidChars(chars) == [SaidChar(chars[0])] + SaidChars(chars[1..]);
      PrependTwice([SaidChar(chars[0])], SaidChars(chars[1..]), DoubleQuoted(tail));
    }
  }

  lemma CharRead(i: Char, rest: string)
    requires CharOk(i)
    ensures DoubleQuoted(SpeltChar(i) + rest) == Prepend([SaidChar(i)], DoubleQuoted(rest))
  {
    var s := SpeltChar(i) + rest;
    match i
    case Plain(c) => assert s[0] == c && s[1..] == rest;
    case Escaped(c) => assert s[0] == '\\' && s[1] == c && s[2..] == rest;
  }

  lemma SingleRead(body: string, rest: string, started: bool)
    requires '\'' !in body
    ensures WordFrom("'" + body + "'" + rest, started) == Prepend(body, WordFrom(rest, true))
  {
    var s := "'" + body + "'" + rest;
    assert s[0] == '\'' && s[1..] == body + "'" + rest;
    SingleReads(body, rest);
  }

  lemma DoubleRead(chars: seq<Char>, rest: string, started: bool)
    requires CharsOk(chars)
    ensures WordFrom("\"" + SpeltChars(chars) + "\"" + rest, started) == Prepend(SaidChars(chars), WordFrom(rest, true))
  {
    var s, tail := "\"" + SpeltChars(chars) + "\"" + rest, "\"" + rest;
    assert s[0] == '"' && s[1..] == SpeltChars(chars) + tail;
    CharsRead(chars, tail);
    assert tail[0] == '"' && tail[1..] == rest && SaidChars(chars) + "" == SaidChars(chars);
  }

  /** One part more of a word. */
  lemma PartRead(p: Part, rest: string, started: bool)
    requires PartOk(p)
    ensures WordFrom(Spelt(p) + rest, started) == Prepend(Said(p), WordFrom(rest, true))
  {
    match p
    case Bare(c) =>
      var s := [c] + rest;
      assert s[0] == c && s[1..] == rest;
    case Single(body) => SingleRead(body, rest, started);
    case Double(chars) => DoubleRead(chars, rest, started);
  }

  lemma {:induction false} PartsRead(parts: seq<Part>, rest: string, started: bool)
    requires PartsOk(parts)
    ensures WordFrom(SpeltParts(parts) + rest, started) ==
            Prepend(SaidParts(parts), WordFrom(rest, started || parts != []))
    decreases |parts|
  {
    if parts == [] {
      assert SpeltParts(parts) + rest == rest;
      PrependNothing(WordFrom(rest, started));
    } else {
      var more := SpeltParts(parts[1..]) + rest;
      assert SpeltParts(parts) + rest == Spelt(parts[0]) + more;
      PartRead(parts[0], more, started);
      PartsRead(parts[1..], rest, true);
      PrependTwice(Said(parts[0]), SaidParts(parts[1..]), WordFrom(rest, true));
    }
  }

  /** What a word begins with. */
  lemma PartBegins(parts: seq<Part>, rest: string)
    requires parts != [] && PartsOk(parts)
    ensures var s := SpeltParts(parts) + rest; s != "" && !IsWhitespace(s[0]) && !IsMeta(s[0])
  {
    var s, p := SpeltParts(parts) + rest, parts[0];
    assert SpeltParts(parts) == Spelt(p) + SpeltParts(parts[1..]);
    assert Spelt(p) != "" && s[0] == Spelt(p)[0];
    match p
    case Bare(c) => assert s[0] == c;
    case Single(body) => assert s[0] == '\'';
    case Double(chars) => assert s[0] == '"';
  }

  lemma {:induction false} BlanksRead(gap: string, rest: string)
    requires Blank(gap)
    ensures TokensFrom(gap + rest) == TokensFrom(rest)
    decreases |gap|
  {
    if gap == "" {
      assert gap + rest == rest;
    } else {
      assert (gap + rest)[0] == gap[0] && (gap + rest)[1..] == gap[1..] + rest;
      BlanksRead(gap[1..], rest);
    }
  }

  function Then(tokens: seq<Token>, r: Result<seq<Token>, LexError>): Result<seq<Token>, LexError> {
    if r.Ok? then Ok(tokens + r.value) else r
  }

  /** One word more of a line. */
  lemma WordRead(parts: seq<Part>, rest: string)
    requires parts != [] && PartsOk(parts) && WordEnds(rest)
    ensures TokensFrom(SpeltParts(parts) + rest) == Then([Classify(SaidParts(parts))], TokensFrom(rest))
  {
    PartBegins(parts, rest);
    PartsRead(parts, rest, false);
    assert SaidParts(parts) + "" == SaidParts(parts);
  }

  function TokensOf(pieces: seq<Piece>): seq<Token> { ClassifyAll(SaidLine(pieces)) }

  lemma OneMorePiece(pieces: seq<Piece>)
    requires pieces != []
    ensures TokensOf(pieces) == [Classify(SaidParts(pieces[0].parts))] + TokensOf(pieces[1..])
    ensures PiecesOk(pieces) ==> PiecesOk(pieces[1..])
  {
    assert SaidLine(pieces)[1..] == SaidLine(pieces[1..]);
  }

  /** What follows the words of a line: its end, or blanks. */
  lemma LineEnds(pieces: seq<Piece>, rest: string)
    requires PiecesOk(pieces) && (pieces == [] ==> WordEnds(rest)) && (pieces != [] ==> pieces[0].gap != "")
    ensures WordEnds(SpeltLine(pieces) + rest)
  {
    if pieces == [] {
      assert SpeltLine(pieces) + rest == rest;
    } else {
      assert (SpeltLine(pieces) + rest)[0] == pieces[0].gap[0];
    }
  }

  lemma PieceRead(gap: string, parts: seq<Part>, more: string)
    requires Blank(gap) && parts != [] && PartsOk(parts) && WordEnds(more)
    ensures TokensFrom(gap + SpeltParts(parts) + more) == Then([Classify(SaidParts(parts))], TokensFrom(more))
  {
    assert gap + SpeltParts(parts) + more == gap + (SpeltParts(parts) + more);
    BlanksRead(gap, SpeltParts(parts) + more);
    WordRead(parts, more);
  }

  lemma {:induction false} LineRead(pieces: seq<Piece>, rest: string)
    requires PiecesOk(pieces) && (pieces != [] ==> WordEnds(rest))
    ensures TokensFrom(SpeltLine(pieces) + rest) == Then(TokensOf(pieces), TokensFrom(rest))
    decreases |pieces|
  {
    if pieces == [] {
      assert SpeltLine(pieces) + rest == rest && TokensOf(pieces) == [];
      if TokensFrom(rest).Ok? { assert [] + TokensFrom(rest).value == TokensFrom(rest).value; }
    } else {
      hide SpeltParts, TokensFrom, TokensOf, Classify, SaidParts;
      var gap, parts, more := pieces[0].gap, pieces[0].parts, SpeltLine(pieces[1..]) + rest;
      OneMorePiece(pieces);
      assert SpeltLine(pieces) + rest == gap + SpeltParts(parts) + more;
      LineEnds(pieces[1..], rest);
      PieceRead(gap, parts, more);
      LineRead(pieces[1..], rest);
      ThenTwice([Classify(SaidParts(parts))], TokensOf(pieces[1..]), TokensFrom(rest));
    }
  }

  lemma ThenTwice(a: seq<Token>, b: seq<Token>, r: Result<seq<Token>, LexError>)
    ensures Then(a, Then(b, r)) == Then(a + b, r)
  {
    if r.Ok? { assert a + (b + r.value) == a + b + r.value; }
  }

  // --- faults ----------------------------------------------------------------

  /** A fault at the beginning of `rest`: a metacharacter, a quote without its end, or an escape that is none. */
  ghost predicate Fault(rest: string, e: LexError) {
    match e
    case UnsupportedMetacharacter(c) => rest != "" && rest[0] == c && c in "|;&<>`"
    case UnterminatedQuote =>
      (rest != "" && rest[0] == '\'' && '\'' !in rest[1..]) ||
      exists chars :: CharsOk(chars) && rest in {"\"" + SpeltChars(chars), "\"" + SpeltChars(chars) + "\\"}
    case InvalidEscape(c) =>
      c !in "nt\"\\" && exists chars, more :: CharsOk(chars) && rest == "\"" + SpeltChars(chars) + ['\\', c] + more
    case _ => false
  }

  lemma {:induction false} NoSingleEnd(body: string)
    requires '\'' !in body
    ensures SingleQuoted(body) == Err(UnterminatedQuote)
  {
    if body != "" {
      assert forall c :: c in body[1..] ==> c in body;
      NoSingleEnd(body[1..]);
    }
  }

  lemma CharsStop(rest: string, chars: seq<Char>, tail: string, e: LexError, started: bool)
    requires CharsOk(chars) && rest == "\"" + SpeltChars(chars) + tail && DoubleQuoted(tail) == Err(e)
    ensures WordFrom(rest, started) == Err(e)
  {
    assert rest[0] == '"' && rest[1..] == SpeltChars(chars) + tail;
    CharsRead(chars, tail);
  }

  lemma UnterminatedRead(rest: string, started: bool)
    requires Fault(rest, UnterminatedQuote)
    ensures WordFrom(rest, started) == Err(UnterminatedQuote)
  {
    if rest != "" && rest[0] == '\'' {
      NoSingleEnd(rest[1..]);
    } else {
      var chars :| CharsOk(chars) && rest in {"\"" + SpeltChars(chars), "\"" + SpeltChars(chars) + "\\"};
      if rest == "\"" + SpeltChars(chars) + "\\" {
        CharsStop(rest, chars, "\\", UnterminatedQuote, started);
      } else {
        assert rest == "\"" + SpeltChars(chars) + "";
        CharsStop(rest, chars, "", UnterminatedQuote, started);
      }
    }
  }

  lemma EscapeRead(rest: string, c: char, started: bool)
    requires Fault(rest, InvalidEscape(c))
    ensures WordFrom(rest, started) == Err(InvalidEscape(c))
  {
    var chars, more :| CharsOk(chars) && rest == "\"" + SpeltChars(chars) + ['\\', c] + more;
    var tail := ['\\', c] + more;
    assert rest == "\"" + SpeltChars(chars) + tail;
    assert tail[0] == '\\' && tail[1] == c;
    CharsStop(rest, chars, tail, InvalidEscape(c), started);
  }

  lemma FaultRead(rest: string, e: LexError, started: bool)
    requires Fault(rest, e) && (e.UnsupportedMetacharacter? ==> started)
    ensures WordFrom(rest, started) == Err(e)
  {
    match e
    case UnsupportedMetacharacter(c) =>
    case UnterminatedQuote => UnterminatedRead(rest, started);
    case InvalidEscape(c) => EscapeRead(rest, c, started);
  }

  /** A word that is begun and stops at a fault. */
  lemma WordStops(parts: seq<Part>, rest: string, e: LexError)
    requires PartsOk(parts) && Fault(rest, e)
    ensures TokensFrom(SpeltParts(parts) + rest) == Err(e)
  {
    if parts == [] {
      assert SpeltParts(parts) + rest == rest;
      if !e.UnsupportedMetacharacter? { FaultRead(rest, e, false); }
    } else {
      PartBegins(parts, rest);
      PartsRead(parts, rest, false);
      FaultRead(rest, e, true);
    }
  }

  // --- every line is cut by the grammar --------------------------------------

  lemma {:induction false} CutChars(body: string) returns (chars: seq<Char>, rest: string)
    ensures CharsOk(chars) && body == SpeltChars(chars) + rest
    ensures rest == "" || rest[0] == '"' || (rest[0] == '\\' && (|rest| > 1 ==> rest[1] !in "nt\"\\"))
    decreases |body|
  {
    chars, rest := [], body;
    if body != "" && body[0] != '"' && body[0] != '\\' {
      var more;
      more, rest := CutChars(body[1..]);
      chars := [Plain(body[0])] + more;
      CharAdded(Plain(body[0]), more, rest);
    } else if |body| > 1 && body[0] == '\\' && body[1] in "nt\"\\" {
      var more;
      more, rest := CutChars(body[2..]);
      chars := [Escaped(body[1])] + more;
      CharAdded(Escaped(body[1]), more, rest);
    }
  }

  lemma CharAdded(i: Char, more: seq<Char>, rest: string)
    ensures SpeltChars([i] + more) + rest == SpeltChar(i) + (SpeltChars(more) + rest)
  {
    assert ([i] + more)[1..] == more;
  }

  lemma {:induction false} CutSingle(body: string) returns (inner: string, rest: string)
    ensures '\'' !in inner && body == inner + rest && (rest == "" || rest[0] == '\'')
    decreases |body|
  {
    inner, rest := "", body;
    if body != "" && body[0] != '\'' {
      var more;
      more, rest := CutSingle(body[1..]);
      inner := [body[0]] + more;
    }
  }

  /** The first part of a word, or a fault. */
  lemma CutPart(s: string) returns (p: Option<Part>, rest: string, e: LexError)
    requires s != "" && !IsWhitespace(s[0])
    ensures p.Some? ==> PartOk(p.value) && s == Spelt(p.value) + rest
    ensures p.None? ==> Fault(s, e)
  {
    p, rest, e := None, "", UnterminatedQuote;
    if s[0] == '\'' {
      var inner, after := CutSingle(s[1..]);
      if after == "" {
        assert s[1..] == inner;
      } else {
        p, rest := Some(Single(inner)), after[1..];
        assert s == "'" + inner + "'" + rest;
      }
    } else if s[0] == '"' {
      p, rest, e := CutDouble(s);
    } else if s[0] in "|;&<>`" {
      e := UnsupportedMetacharacter(s[0]);
    } else {
      p, rest := Some(Bare(s[0])), s[1..];
    }
  }

  lemma CutDouble(s: string) returns (p: Option<Part>, rest: string, e: LexError)
    requires s != "" && s[0] == '"'
    ensures p.Some? ==> PartOk(p.value) && s == Spelt(p.value) + rest
    ensures p.None? ==> Fault(s, e)
  {
    hide SpeltChars, CharsOk;
    var chars, after := CutChars(s[1..]);
    p, rest, e := None, "", UnterminatedQuote;
    assert s == "\"" + SpeltChars(chars) + after;
    if after == "" {
      assert s == "\"" + SpeltChars(chars);
    } else if after[0] == '"' {
      p, rest := Some(Double(chars)), after[1..];
      assert s == "\"" + SpeltChars(chars) + "\"" + rest;
    } else if |after| == 1 {
      assert after == "\\";
    } else {
      e := InvalidEscape(after[1]);
      assert s == "\"" + SpeltChars(chars) + ['\\', after[1]] + after[2..];
    }
  }

  lemma PartAdded(p: Part, parts: seq<Part>, rest: string)
    ensures SpeltParts([p] + parts) + rest == Spelt(p) + (SpeltParts(parts) + rest)
    ensures PartOk(p) && PartsOk(parts) ==> PartsOk([p] + parts)
  {
    assert ([p] + parts)[1..] == parts;
  }

  lemma {:induction false} CutWord(s: string) returns (parts: seq<Part>, rest: string, fault: Option<LexError>)
    ensures PartsOk(parts) && s == SpeltParts(parts) + rest
    ensures if fault.Some? then Fault(rest, fault.value) else WordEnds(rest)
    decreases |s|
  {
    parts, rest, fault := [], s, None;
    if !WordEnds(s) {
      var p, after, e := CutPart(s);
      if p.None? {
        fault := Some(e);
      } else {
        var more;
        assert Spelt(p.value) != "";
        more, rest, fault := CutWord(after);
        parts := [p.value] + more;
        PartAdded(p.value, more, rest);
      }
    }
  }

  lemma {:induction false} CutBlanks(s: string) returns (gap: string, rest: string)
    ensures Blank(gap) && s == gap + rest && (rest == "" || !IsWhitespace(rest[0]))
    decreases |s|
  {
    gap, rest := "", s;
    if s != "" && IsWhitespace(s[0]) {
      var more;
      more, rest := CutBlanks(s[1..]);
      gap := [s[0]] + more;
    }
  }

  /** The line is `pieces` and then blanks. */
  ghost predicate Spells(line: string, pieces: seq<Piece>, tail: string) {
    PiecesOk(pieces) && Blank(tail) && line == SpeltLine(pieces) + tail
  }

  /** The line is `pieces`, the beginning of one more word, and a fault. */
  ghost predicate Stops(line: string, pieces: seq<Piece>, gap: string, parts: seq<Part>, rest: string, e: LexError) {
    PiecesOk(pieces) && Blank(gap) && (pieces != [] ==> gap != "") && PartsOk(parts) && Fault(rest, e) &&
    line == SpeltLine(pieces) + (gap + (SpeltParts(parts) + rest))
  }

  /** Either of the two. */
  ghost predicate Cut(line: string, pieces: seq<Piece>, gap: string, parts: seq<Part>, rest: string,
                      fault: Option<LexError>) {
    if fault.None? then Spells(line, pieces, gap) else Stops(line, pieces, gap, parts, rest, fault.value)
  }

  lemma FaultBegins(rest: string, e: LexError)
    requires Fault(rest, e)
    ensures rest != "" && !IsWhitespace(rest[0])
  {
    hide SpeltChars;
  }

  /** What does not begin with a blank does not follow a word. */
  lemma WordDoesNotEnd(parts: seq<Part>, rest: string, e: LexError)
    requires PartsOk(parts) && Fault(rest, e)
    ensures !WordEnds(SpeltParts(parts) + rest)
  {
    FaultBegins(rest, e);
    if parts == [] { assert SpeltParts(parts) + rest == rest; } else { PartBegins(parts, rest); }
  }

  lemma FirstGap(pieces: seq<Piece>, rest: string)
    requires PiecesOk(pieces) && pieces != [] && WordEnds(SpeltLine(pieces) + rest)
    ensures pieces[0].gap != ""
  {
    hide SpeltLine, SpeltParts;
    var first, more := pieces[0], SpeltLine(pieces[1..]) + rest;
    assert pieces == [first] + pieces[1..];
    PieceSpelt(first, pieces[1..], rest);
    PartBegins(first.parts, more);
    assert "" + SpeltParts(first.parts) == SpeltParts(first.parts);
  }

  lemma PieceSpelt(first: Piece, more: seq<Piece>, rest: string)
    ensures SpeltLine([first] + more) + rest == first.gap + SpeltParts(first.parts) + (SpeltLine(more) + rest)
  {
    assert ([first] + more)[1..] == more;
  }

  /** A word more in front. */
  lemma PieceAdded(first: Piece, after: string, more: seq<Piece>, gap: string, parts: seq<Part>, rest: string,
                   fault: Option<LexError>)
    requires Blank(first.gap) && first.parts != [] && PartsOk(first.parts) && WordEnds(after)
    requires Cut(after, more, gap, parts, rest, fault)
    ensures Cut(first.gap + SpeltParts(first.parts) + after, [first] + more, gap, parts, rest, fault)
  {
    hide SpeltLine, SpeltParts, Fault, WordEnds, PartsOk, Blank;
    var tail := if fault.None? then gap else gap + (SpeltParts(parts) + rest);
    assert after == SpeltLine(more) + tail;
    PieceSpelt(first, more, tail);
    if more != [] { FirstGap(more, tail); }
    assert PiecesOk([first] + more);
    if fault.Some? && more == [] && gap == "" {
      EmptyLine(tail);
      assert tail == SpeltParts(parts) + rest;
      WordDoesNotEnd(parts, rest, fault.value);
    }
  }

  lemma EmptyLine(tail: string)
    ensures SpeltLine([]) + tail == tail
  {
  }

  lemma {:induction false} CutLine(line: string)
    returns (pieces: seq<Piece>, gap: string, parts: seq<Part>, rest: string, fault: Option<LexError>)
    ensures Cut(line, pieces, gap, parts, rest, fault)
    decreases |line|
  {
    hide SpeltLine, SpeltParts, Fault, IsWhitespace;
    pieces := [];
    var word;
    gap, word := CutBlanks(line);
    EmptyLine(line);
    if word == "" { return pieces, gap, [], "", None; }
    parts, rest, fault := CutWord(word);
    if fault.Some? { return; }
    var first, after := Piece(gap, parts), rest;
    WordIsThere(parts, after);
    assert line == first.gap + SpeltParts(first.parts) + after;
    var more;
    more, gap, parts, rest, fault := CutLine(after);
    pieces := [first] + more;
    PieceAdded(first, after, more, gap, parts, rest, fault);
  }

  lemma WordIsThere(parts: seq<Part>, rest: string)
    requires PartsOk(parts) && WordEnds(rest) && !WordEnds(SpeltParts(parts) + rest)
    ensures parts != [] && |SpeltParts(parts)| > 0
  {
    assert SpeltParts([]) + rest == rest;
    if parts != [] { PartBegins(parts, ""); }
  }

  // --- the two together ------------------------------------------------------

  lemma SpelledIsRead(line: string, pieces: seq<Piece>, tail: string)
    requires Spells(line, pieces, tail)
    ensures TokensFrom(line) == Ok(TokensOf(pieces))
  {
    LineRead(pieces, tail);
    BlanksRead(tail, "");
    assert tail + "" == tail && TokensFrom("") == Ok([]);
    assert TokensOf(pieces) + [] == TokensOf(pieces);
  }

  lemma FaultIsReported(line: string, pieces: seq<Piece>, gap: string, parts: seq<Part>, rest: string, e: LexError)
    requires Stops(line, pieces, gap, parts, rest, e)
    ensures TokensFrom(line) == Err(e)
  {
    hide SpeltLine, SpeltParts, Fault, PiecesOk, PartsOk, TokensFrom;
    LineRead(pieces, gap + (SpeltParts(parts) + rest));
    BlanksRead(gap, SpeltParts(parts) + rest);
    WordStops(parts, rest, e);
  }

  /** The tokens of a line are those of the words it is spelled from; if there are none, the first fault is told. */
  lemma ReadIff(line: string)
    ensures forall tokens :: TokensFrom(line) == Ok(tokens) <==>
              exists pieces, tail :: Spells(line, pieces, tail) && tokens == TokensOf(pieces)
    ensures forall e :: TokensFrom(line) == Err(e) <==>
              exists pieces, gap, parts, rest :: Stops(line, pieces, gap, parts, rest, e)
  {
    hide TokensFrom, TokensOf, Spells, Stops;
    forall pieces, tail | Spells(line, pieces, tail) ensures TokensFrom(line) == Ok(TokensOf(pieces)) {
      SpelledIsRead(line, pieces, tail);
    }
    forall pieces, gap, parts, rest, e | Stops(line, pieces, gap, parts, rest, e) ensures TokensFrom(line) == Err(e) {
      FaultIsReported(line, pieces, gap, parts, rest, e);
    }
    var pieces, gap, parts, rest, fault := CutLine(line);
  }

  lemma {:induction false} DollarParenIs(s: string)
    ensures HasDollarParen(s) <==> exists i :: 0 <= i < |s| - 1 && s[i] == '$' && s[i + 1] == '('
    decreases |s|
  {
    if |s| >= 2 {
      DollarParenIs(s[1..]);
      assert forall i :: 0 <= i < |s| - 1 ==> s[1..][i] == s[i + 1];
      if i :| 0 <= i < |s| - 1 && s[i] == '$' && s[i + 1] == '(' {
        if i > 0 { assert s[1..][i - 1] == '$' && s[1..][i - 1 + 1] == '('; }
      }
    }
  }

  ghost predicate Spelled(line: string) { exists pieces, tail :: Spells(line, pieces, tail) }

  /** Without its checks of the whole line: read if spelled, and else the fault is none of those checks. */
  lemma OutcomeOfLine(line: string)
    ensures TokensFrom(line).Ok? <==> Spelled(line)
    ensures TokensFrom(line).Err? ==> !TokensFrom(line).error.TooLong? && !TokensFrom(line).error.NulByte?
  {
    ReadIff(line);
    forall pieces, tail | Spells(line, pieces, tail) ensures TokensFrom(line).Ok? {
      SpelledIsRead(line, pieces, tail);
    }
    hide TokensFrom, TokensOf, Spells;
    if TokensFrom(line).Ok? {
      assert TokensFrom(line) == Ok(TokensFrom(line).value);
    } else {
      var e := TokensFrom(line).error;
      assert TokensFrom(line) == Err(e);
      var pieces, gap, parts, rest :| Stops(line, pieces, gap, parts, rest, e);
    }
  }

  /** `tokenize`: three checks of the whole line, in this order, and then the grammar. */
  lemma TokenizeIff(line: string)
    ensures Tokens(line) == Err(TooLong(65536, Utf8Len(line))) <==> Utf8Len(line) > 65536
    ensures Tokens(line) == Err(NulByte) <==> Utf8Len(line) <= 65536 && '\0' in line
    ensures Tokens(line).Ok? <==>
              Utf8Len(line) <= 65536 && '\0' !in line && Spelled(line) &&
              forall i :: 0 <= i < |line| - 1 ==> !(line[i] == '$' && line[i + 1] == '(')
    ensures forall pieces, tail :: Tokens(line).Ok? && Spells(line, pieces, tail) ==>
              Tokens(line) == Ok(TokensOf(pieces))
  {
    DollarParenIs(line);
    OutcomeOfLine(line);
    forall pieces, tail | Spells(line, pieces, tail) ensures TokensFrom(line) == Ok(TokensOf(pieces)) {
      SpelledIsRead(line, pieces, tail);
    }
    hide TokensFrom, TokensOf, Spells, HasDollarParen, Utf8Len;
  }

  /** Quoting leaves exactly the words alone that are spelled by bare characters. */
  lemma QuotedIsSameIff(word: string)
    ensures Quoted(word) == word <==> word != "" && forall i :: 0 <= i < |word| ==> PartOk(Bare(word[i]))
  {
    if NeedsQuoting(word) && '\'' in word { EscapeIsLonger(word); }
  }

  lemma {:induction false} EscapeIsLonger(word: string)
    ensures |Escape(word)| >= |word|
  {
    if word != "" { EscapeIsLonger(word[1..]); }
  }
}
