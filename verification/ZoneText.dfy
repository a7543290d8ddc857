/** What whole texts are tokenized into: words, quoted strings, parentheses, comments and lines. */
module ZoneText {
  import opened Wrappers
  import opened Names
  import opened Ascii
  import opened Tokenizers
  import NameText

  datatype Piece =
    | Word(word: seq<ascii>)
    | Str(octets: seq<byte>)
    | Blank(isTab: bool)
    | Opening
    | Closing
    | Break
    | Remark(remark: seq<ascii>)

  /** Characters that are no delimiters, and escapes: a backslash with any character of the line. */
  predicate Letters(w: seq<byte>) {
    w == []
    || (if w[0] == 92 then |w| >= 2 && w[1] != 10 && Letters(w[2..])
        else w[0] !in {9, 10, 32, 34, 40, 41, 59} && Letters(w[1..]))
  }

  predicate PieceOk(p: Piece) {
    match p
    case Word(w) => w != [] && Letters(w)
    case Remark(c) => NEWLINE !in c
    case _ => true
  }

  /** No two words without anything between them. */
  predicate WellSpaced(pieces: seq<Piece>) {
    && (forall i | 0 <= i < |pieces| :: PieceOk(pieces[i]))
    && forall i | 0 < i < |pieces| :: pieces[i - 1].Word? ==> !pieces[i].Word?
  }

  function PieceText(p: Piece): seq<ascii> {
    match p
    case Word(w) => w
    case Str(s) => Quoted(s)
    case Blank(isTab) => [if isTab then 9 else 32]
    case Opening => [40]
    case Closing => [41]
    case Break => [10]
    case Remark(c) => [59] + c + [10]
  }

  /** The pieces, and perhaps a last comment whose line does not end. */
  function TextOf(pieces: seq<Piece>, last: Option<seq<ascii>>): seq<ascii> {
    if pieces != [] then PieceText(pieces[0]) + TextOf(pieces[1..], last)
    else if last.Some? then [59] + last.value
    else []
  }

  // ---------- What the pieces mean ----------

  type Result_ = Result<Token, TokenError>

  function WordToken(w: seq<ascii>): Token {
    Token(Identifier, w, 92 in w, None)
  }

  function StringToken(s: seq<byte>): Token {
    Token(QuotedString, Escaped(s), 92 in Escaped(s), None)
  }

  function Ending(depth: nat): seq<Result_> {
    if depth > 0 then [Failure(SyntaxError)] else [Success(Token(Eof, [], false, None))]
  }

  /** The tokens of a text at a depth of parentheses: words and strings, each line's end outside
      parentheses with the comment before it, and then the end. Parentheses must match. */
  function Meaning(pieces: seq<Piece>, last: Option<seq<ascii>>, depth: nat, wantComment: bool): seq<Result_>
    decreases pieces
  {
    if pieces == [] then
      if last.None? then Ending(depth)
      else if wantComment then [Success(Token(Comment, last.value, false, None))] + Ending(depth)
      else if depth > 0 then [Failure(SyntaxError)]
      else [Success(Token(Eof, [], false, last))]
    else
      var line := if depth > 0 then [] else [Success(Token(Eol, [10], false, None))];
      match pieces[0]
      case Word(w) => [Success(WordToken(w))] + Meaning(pieces[1..], last, depth, wantComment)
      case Str(s) => [Success(StringToken(s))] + Meaning(pieces[1..], last, depth, wantComment)
      case Blank(_) => Meaning(pieces[1..], last, depth, wantComment)
      case Opening => Meaning(pieces[1..], last, depth + 1, wantComment)
      case Closing =>
        if depth == 0 then [Failure(SyntaxError)] else Meaning(pieces[1..], last, depth - 1, wantComment)
      case Break => line + Meaning(pieces[1..], last, depth, wantComment)
      case Remark(c) =>
        (if wantComment then [Success(Token(Comment, c, false, None))] + line
         else if depth > 0 then []
         else [Success(Token(Eol, [10], false, Some(c)))])
        + Meaning(pieces[1..], last, depth, wantComment)
  }

  /** The first tokens of a text. */
  function Tokens(t: State, n: nat, wantComment: bool): seq<Result_>
    decreases n
  {
    if n == 0 then []
    else
      var (u, r) := Get(t, false, wantComment);
      [r] + Tokens(u, n - 1, wantComment)
  }

  // ---------- Reading a text ----------

  /** Nothing of the text has been read, inside so many parentheses. */
  function Reading(text: seq<ascii>, depth: nat): State {
    State(text, None, depth, false, false, None)
  }

  /** The next token is the one that is next in this text, and so is everything after it. */
  predicate Reads(t: State, text: seq<ascii>, depth: nat, wantComment: bool) {
    Get(t, false, wantComment) == Get(Reading(text, depth), false, wantComment)
  }

  lemma SameNext(t: State, text: seq<ascii>, depth: nat, wantComment: bool)
    requires t.ungottenToken.None? && GetChar(t) == GetChar(Reading(text, depth))
    ensures Reads(t, text, depth, wantComment)
  {
    hide AtDelimiter, Delimiters;
    assert SkipWhitespace(t) == SkipWhitespace(Reading(text, depth));
  }

  lemma PutBack(text: seq<ascii>, c: ascii, depth: nat, wantComment: bool)
    ensures Reads(Unget(Reading(text, depth), Some(c)), [c] + text, depth, wantComment)
  {
    assert ([c] + text)[1..] == text;
    SameNext(Unget(Reading(text, depth), Some(c)), [c] + text, depth, wantComment);
  }

  lemma Skipped(text: seq<ascii>, c: ascii, depth: nat, wantComment: bool)
    requires c == SPACE || c == TAB || (c == NEWLINE && depth > 0)
    ensures Get(Reading([c] + text, depth), false, wantComment) == Get(Reading(text, depth), false, wantComment)
  {
    assert ([c] + text)[1..] == text;
    hide Loop;
  }

  /** A character that is not skipped is where the main loop begins. */
  lemma LoopBegins(text: seq<ascii>, c: ascii, depth: nat, wantComment: bool)
    requires c != SPACE && c != TAB && (c == NEWLINE ==> depth == 0)
    ensures Get(Reading([c] + text, depth), false, wantComment)
            == Loop(Reading([c] + text, depth), [], Identifier, false, wantComment)
  {
    var t := Reading([c] + text, depth);
    assert ([c] + text)[1..] == text;
    assert SkipWhitespace(t) == (Unget(Reading(text, depth), Some(c)), 0);
    hide AtDelimiter, Delimiters;
    assert GetChar(Unget(Reading(text, depth), Some(c))) == GetChar(t);
  }

  lemma LoopMeets(text: seq<ascii>, c: ascii, depth: nat, wantComment: bool)
    requires c in Delimiters(false)
    ensures Loop(Reading([c] + text, depth), [], Identifier, false, wantComment)
            == AtDelimiter(Reading(text, depth), c, Identifier, false, wantComment)
  {
    assert ([c] + text)[1..] == text;
    hide AtDelimiter;
  }

  lemma Parenthesis(text: seq<ascii>, depth: nat, wantComment: bool)
    ensures Get(Reading([OPEN] + text, depth), false, wantComment) == Get(Reading(text, depth + 1), false, wantComment)
    ensures depth > 0 ==> Get(Reading([CLOSE] + text, depth), false, wantComment)
                          == Get(Reading(text, depth - 1), false, wantComment)
    ensures Get(Reading([CLOSE] + text, 0), false, wantComment).1 == Failure(SyntaxError)
  {
    LoopBegins(text, OPEN, depth, wantComment);
    LoopMeets(text, OPEN, depth, wantComment);
    LoopBegins(text, CLOSE, depth, wantComment);
    LoopMeets(text, CLOSE, depth, wantComment);
    LoopBegins(text, CLOSE, 0, wantComment);
    LoopMeets(text, CLOSE, 0, wantComment);
    hide Loop, SkipWhitespace, ReadComment, Delimiters;
  }

  lemma LineEnds(text: seq<ascii>, wantComment: bool)
    ensures Get(Reading([NEWLINE] + text, 0), false, wantComment)
            == (Reading(text, 0), Success(Token(Eol, [10], false, None)))
  {
    LoopBegins(text, NEWLINE, 0, wantComment);
    LoopMeets(text, NEWLINE, 0, wantComment);
    hide Loop, SkipWhitespace, ReadComment, Delimiters;
  }

  lemma {:induction false} CommentRead(c: seq<ascii>, text: seq<ascii>, depth: nat, token: seq<ascii>)
    requires NEWLINE !in c
    ensures ReadComment(Reading(c + ([NEWLINE] + text), depth), token)
            == (Reading(text, depth), token + c, Some(NEWLINE))
    ensures ReadComment(Reading(c, depth), token) == (Reading([], depth).(eof := true), token + c, None)
    decreases c
  {
    if c == [] {
      assert c + ([NEWLINE] + text) == [NEWLINE] + text && token + c == token;
      assert ([NEWLINE] + text)[1..] == text;
    } else {
      assert (c + ([NEWLINE] + text))[1..] == c[1..] + ([NEWLINE] + text);
      assert token + [c[0]] + c[1..] == token + c;
      CommentRead(c[1..], text, depth, token + [c[0]]);
    }
  }

  lemma CommentMet(c: seq<ascii>, text: seq<ascii>, depth: nat, wantComment: bool)
    requires NEWLINE !in c
    ensures var (u, r) := Get(Reading([59] + c + [10] + text, depth), false, wantComment);
            if wantComment then r == Success(Token(Comment, c, false, None)) && Reads(u, [10] + text, depth, true)
            else if depth > 0 then (u, r) == Get(Reading(text, depth), false, false)
            else (u, r) == (Reading(text, 0), Success(Token(Eol, [10], false, Some(c))))
  {
    var rest := c + ([NEWLINE] + text);
    assert [59] + c + [10] + text == [SEMICOLON] + rest;
    LoopBegins(rest, SEMICOLON, depth, wantComment);
    LoopMeets(rest, SEMICOLON, depth, wantComment);
    CommentRead(c, text, depth, []);
    assert [] + c == c;
    PutBack(text, NEWLINE, depth, wantComment);
    hide Loop, SkipWhitespace, ReadComment, Delimiters;
  }

  lemma CommentEnds(c: seq<ascii>, depth: nat, wantComment: bool)
    requires NEWLINE !in c
    ensures var (u, r) := Get(Reading([59] + c, depth), false, wantComment);
            if wantComment then r == Success(Token(Comment, c, false, None)) && Reads(u, [], depth, true)
            else r == if depth > 0 then Failure(SyntaxError) else Success(Token(Eof, [], false, Some(c)))
  {
    LoopBegins(c, SEMICOLON, depth, wantComment);
    LoopMeets(c, SEMICOLON, depth, wantComment);
    CommentRead(c, [], depth, []);
    assert [] + c == c;
    SameNext(Unget(Reading([], depth).(eof := true), None), [], depth, wantComment);
    hide Loop, SkipWhitespace, ReadComment, Delimiters, Reads;
  }

  lemma TextEnds(depth: nat, wantComment: bool)
    ensures [Get(Reading([], depth), false, wantComment).1] == Ending(depth)
  {
    var end := Reading([], depth).(eof := true, ungotten := Some(None));
    assert SkipWhitespace(Reading([], depth)) == (end, 0);
    hide AtDelimiter, Delimiters;
  }

  // ---------- Leading blanks ----------

  lemma {:induction false} SkippedOnce(t: State)
    ensures var u := SkipWhitespace(t).0; SkipWhitespace(u) == (u, 0) && u.ungottenToken == t.ungottenToken
    decreases Remaining(t)
  {
    var (u, c) := GetChar(t);
    if c == Some(SPACE) || c == Some(TAB) || (c == Some(NEWLINE) && u.multiline > 0) {
      SkippedOnce(u);
    }
  }

  /** A caller that wants to know of leading blanks gets one token for all of them, and then what it
      would have got without asking. */
  lemma {:induction false} LeadingBlanks(text: seq<ascii>, depth: nat, wantComment: bool)
    ensures var (u, r) := Get(Reading(text, depth), true, wantComment);
            if text != [] && (text[0] in {9, 32} || (text[0] == 10 && depth > 0))
            then r == Success(Token(Whitespace, [32], false, None)) && Reads(u, text, depth, wantComment)
            else (u, r) == Get(Reading(text, depth), false, wantComment)
  {
    SkippedOnce(Reading(text, depth));
    hide Loop;
  }

  // ---------- Words ----------

  /** A word ends at the end of the text, or at a delimiter. */
  predicate WordEnds(text: seq<ascii>) {
    text == [] || text[0] in {9, 10, 32, 34, 40, 41, 59}
  }

  lemma {:induction false} LoopStops(text: seq<ascii>, depth: nat, token: seq<ascii>, hasEscape: bool,
      wantComment: bool)
    requires WordEnds(text) && token != []
    ensures var (u, r) := Loop(Reading(text, depth), token, Identifier, hasEscape, wantComment);
            r == Success(Token(Identifier, token, hasEscape, None)) && Reads(u, text, depth, wantComment)
  {
    var u := Loop(Reading(text, depth), token, Identifier, hasEscape, wantComment).0;
    if text == [] {
      SameNext(u, text, depth, wantComment);
    } else {
      assert text == [text[0]] + text[1..];
      assert u == Unget(Reading(text[1..], depth), Some(text[0]));
      PutBack(text[1..], text[0], depth, wantComment);
    }
  }

  lemma {:induction false} LoopReads(w: seq<ascii>, text: seq<ascii>, depth: nat, token: seq<ascii>, hasEscape: bool,
      wantComment: bool)
    requires Letters(w) && WordEnds(text) && token + w != []
    ensures var (u, r) := Loop(Reading(w + text, depth), token, Identifier, hasEscape, wantComment);
            && r == Success(Token(Identifier, token + w, hasEscape || 92 in w, None))
            && Reads(u, text, depth, wantComment)
    decreases |w|
  {
    hide AtDelimiter, Finish, Reads;
    if w == [] {
      assert w + text == text && token + w == token;
      LoopStops(text, depth, token, hasEscape, wantComment);
    } else if w[0] == 92 {
      assert (w + text)[1..] == w[1..] + text && (w + text)[1..][1..] == w[2..] + text;
      assert w == [w[0], w[1]] + w[2..] && token + w == token + [w[0], w[1]] + w[2..];
      LoopReads(w[2..], text, depth, token + [w[0], w[1]], true, wantComment);
    } else {
      assert (w + text)[1..] == w[1..] + text;
      assert w == [w[0]] + w[1..] && token + w == token + [w[0]] + w[1..];
      LoopReads(w[1..], text, depth, token + [w[0]], hasEscape, wantComment);
    }
  }

  lemma WordRead(w: seq<ascii>, text: seq<ascii>, depth: nat, wantComment: bool)
    requires w != [] && Letters(w) && WordEnds(text)
    ensures var (u, r) := Get(Reading(w + text, depth), false, wantComment);
            r == Success(WordToken(w)) && Reads(u, text, depth, wantComment)
  {
    assert w + text == [w[0]] + (w[1..] + text);
    LoopBegins(w[1..] + text, w[0], depth, wantComment);
    LoopReads(w, text, depth, [], false, wantComment);
    assert [] + w == w;
    hide Loop, Get, Reads;
  }

  // ---------- Quoted strings ----------

  function Inside(rest: seq<ascii>, depth: nat): State {
    Reading(rest, depth).(quoting := true)
  }

  /** After a quoted string: its closing quote has been put back. */
  function AfterString(rest: seq<ascii>, depth: nat): State {
    Inside(rest, depth).(ungotten := Some(Some(QUOTE)))
  }

  lemma {:induction false} LoopInside(rest: seq<ascii>, depth: nat, c: ascii, token: seq<ascii>, hasEscape: bool,
      wantComment: bool)
    ensures c != QUOTE && c != NEWLINE && c != BACKSLASH ==>
              Loop(Inside([c] + rest, depth), token, QuotedString, hasEscape, wantComment)
              == Loop(Inside(rest, depth), token + [c], QuotedString, hasEscape, wantComment)
    ensures Loop(Inside([BACKSLASH, c] + rest, depth), token, QuotedString, hasEscape, wantComment)
            == Loop(Inside(rest, depth), token + [BACKSLASH, c], QuotedString, true, wantComment)
    ensures Loop(Inside([QUOTE] + rest, depth), token, QuotedString, hasEscape, wantComment)
            == (AfterString(rest, depth), Success(Token(QuotedString, token, hasEscape, None)))
  {
    assert ([c] + rest)[1..] == rest && ([QUOTE] + rest)[1..] == rest;
    assert ([BACKSLASH, c] + rest)[1..] == [c] + rest;
    hide AtDelimiter;
  }

  lemma {:induction false} OctetLooped(c: byte, rest: seq<ascii>, depth: nat, token: seq<ascii>, hasEscape: bool,
      wantComment: bool)
    ensures Loop(Inside(EscapedOctet(c) + rest, depth), token, QuotedString, hasEscape, wantComment)
            == Loop(Inside(rest, depth), token + EscapedOctet(c), QuotedString,
                    hasEscape || BACKSLASH in EscapedOctet(c), wantComment)
  {
    hide Loop, ThreeDigits;
    if c == QUOTE || c == BACKSLASH || 0x20 <= c < 0x7F {
      LoopInside(rest, depth, c, token, hasEscape, wantComment);
    } else {
      DigitsLooped(c, rest, depth, token, hasEscape, wantComment);
    }
  }

  lemma {:induction false} DigitsLooped(c: byte, rest: seq<ascii>, depth: nat, token: seq<ascii>, hasEscape: bool,
      wantComment: bool)
    ensures Loop(Inside([BACKSLASH] + ThreeDigits(c) + rest, depth), token, QuotedString, hasEscape, wantComment)
            == Loop(Inside(rest, depth), token + ([BACKSLASH] + ThreeDigits(c)), QuotedString, true, wantComment)
  {
    var d := ThreeDigits(c);
    hide Loop;
    assert [BACKSLASH] + d + rest == [BACKSLASH, d[0]] + ([d[1]] + ([d[2]] + rest));
    LoopInside([d[1]] + ([d[2]] + rest), depth, d[0], token, hasEscape, wantComment);
    LoopInside([d[2]] + rest, depth, d[1], token + [BACKSLASH, d[0]], true, wantComment);
    LoopInside(rest, depth, d[2], token + [BACKSLASH, d[0]] + [d[1]], true, wantComment);
    assert token + [BACKSLASH, d[0]] + [d[1]] + [d[2]] == token + ([BACKSLASH] + d);
  }

  lemma {:induction false} StringLooped(s: seq<byte>, rest: seq<ascii>, depth: nat, token: seq<ascii>, hasEscape: bool,
      wantComment: bool)
    ensures Loop(Inside(Escaped(s) + ([QUOTE] + rest), depth), token, QuotedString, hasEscape, wantComment)
            == (AfterString(rest, depth),
                Success(Token(QuotedString, token + Escaped(s), hasEscape || BACKSLASH in Escaped(s), None)))
    decreases s
  {
    hide Loop, EscapedOctet;
    if s == [] {
      assert Escaped(s) + ([QUOTE] + rest) == [QUOTE] + rest && token + Escaped(s) == token;
      LoopInside(rest, depth, QUOTE, token, hasEscape, wantComment);
    } else {
      var first := EscapedOctet(s[0]);
      assert Escaped(s) + ([QUOTE] + rest) == first + (Escaped(s[1..]) + ([QUOTE] + rest));
      assert token + Escaped(s) == token + first + Escaped(s[1..]);
      OctetLooped(s[0], Escaped(s[1..]) + ([QUOTE] + rest), depth, token, hasEscape, wantComment);
      StringLooped(s[1..], rest, depth, token + first, hasEscape || BACKSLASH in first, wantComment);
    }
  }

  /** The quote put back is read again, and ends the quoting. */
  lemma QuoteCloses(text: seq<ascii>, depth: nat, wantComment: bool)
    ensures Reads(AfterString(text, depth), text, depth, wantComment)
  {
    var t := AfterString(text, depth);
    assert SkipWhitespace(t) == (t, 0);
    assert Loop(t, [], Identifier, false, wantComment)
        == AtDelimiter(Inside(text, depth), QUOTE, Identifier, false, wantComment);
    hide Loop, SkipWhitespace;
  }

  lemma StringRead(s: seq<byte>, text: seq<ascii>, depth: nat, wantComment: bool)
    ensures var (u, r) := Get(Reading(Quoted(s) + text, depth), false, wantComment);
            r == Success(StringToken(s)) && Reads(u, text, depth, wantComment)
  {
    var rest := Escaped(s) + ([QUOTE] + text);
    assert Quoted(s) + text == [QUOTE] + rest;
    LoopBegins(rest, QUOTE, depth, wantComment);
    LoopMeets(rest, QUOTE, depth, wantComment);
    StringLooped(s, text, depth, [], false, wantComment);
    assert [] + Escaped(s) == Escaped(s);
    QuoteCloses(text, depth, wantComment);
    hide Loop, SkipWhitespace, ReadComment, Delimiters, Reads, Get, Escaped;
  }

  // ---------- Whole texts ----------

  lemma TokensFirst(t: State, n: nat, wantComment: bool)
    requires n > 0
    ensures Tokens(t, n, wantComment)
            == [Get(t, false, wantComment).1] + Tokens(Get(t, false, wantComment).0, n - 1, wantComment)
  {
    hide Get;
  }

  /** After a word comes something that ends it. */
  lemma WordIsEnded(pieces: seq<Piece>, last: Option<seq<ascii>>)
    requires pieces != [] ==> !pieces[0].Word?
    ensures WordEnds(TextOf(pieces, last))
  {
  }

  predicate Yields(t: State, tokens: seq<Result_>, wantComment: bool) {
    Tokens(t, |tokens|, wantComment) == tokens
  }

  /** One token, and then the rest. */
  lemma OneYields(t: State, u: State, r: Result_, rest: seq<Result_>, wantComment: bool)
    requires Get(t, false, wantComment) == (u, r) && Yields(u, rest, wantComment)
    ensures Yields(t, [r] + rest, wantComment)
  {
    TokensFirst(t, |rest| + 1, wantComment);
    hide Get, Tokens;
  }

  lemma LastTokens(t: State, last: Option<seq<ascii>>, depth: nat, wantComment: bool)
    requires Reads(t, TextOf([], last), depth, wantComment) && (last.Some? ==> NEWLINE !in last.value)
    ensures Yields(t, Meaning([], last, depth, wantComment), wantComment)
  {
    hide Get;
    var m := Meaning([], last, depth, wantComment);
    TokensFirst(t, |m|, wantComment);
    var u := Get(t, false, wantComment).0;
    if last.None? {
      TextEnds(depth, wantComment);
      assert Tokens(u, 0, wantComment) == [];
    } else {
      CommentEnds(last.value, depth, wantComment);
      if wantComment {
        TextEnds(depth, wantComment);
        TokensFirst(u, 1, wantComment);
        assert Tokens(Get(u, false, wantComment).0, 0, wantComment) == [];
      } else {
        assert Tokens(u, 0, wantComment) == [];
      }
    }
  }

  /** A piece that yields no token: the text reads on after it. */
  lemma Passed(p: Piece, text: seq<ascii>, depth: nat, wantComment: bool)
    requires p.Blank? || (depth > 0 && p.Break?)
    ensures Get(Reading(PieceText(p) + text, depth), false, wantComment)
            == Get(Reading(text, depth), false, wantComment)
  {
    Skipped(text, PieceText(p)[0], depth, wantComment);
    hide Get;
    assert PieceText(p) == [PieceText(p)[0]];
  }

  lemma TextFirst(pieces: seq<Piece>, last: Option<seq<ascii>>)
    requires pieces != [] && WellSpaced(pieces)
    ensures TextOf(pieces, last) == PieceText(pieces[0]) + TextOf(pieces[1..], last)
    ensures WellSpaced(pieces[1..]) && PieceOk(pieces[0])
    ensures pieces[0].Word? ==> WordEnds(TextOf(pieces[1..], last))
  {
    if pieces[0].Word? {
      WordIsEnded(pieces[1..], last);
    }
    hide PieceOk, PieceText, TextOf;
  }

  /** What the tokens are when the first piece is a comment. */
  lemma {:induction false} RemarkYields(t: State, c: seq<ascii>, text: seq<ascii>, depth: nat, wantComment: bool,
      tokens: seq<Result_>, line: seq<Result_>)
    requires NEWLINE !in c && Reads(t, [59] + c + [10] + text, depth, wantComment)
    requires forall u | Reads(u, text, depth, wantComment) :: Yields(u, tokens, wantComment)
    requires line == if depth > 0 then [] else [Success(Token(Eol, [10], false, None))]
    ensures Yields(t, (if wantComment then [Success(Token(Comment, c, false, None))] + line
                       else if depth > 0 then []
                       else [Success(Token(Eol, [10], false, Some(c)))]) + tokens, wantComment)
  {
    hide Get, Tokens, Yields;
    CommentMet(c, text, depth, wantComment);
    var (u, r) := Get(t, false, wantComment);
    if wantComment {
      BreakYields(u, text, depth, true, tokens, line);
      OneYields(t, u, r, line + tokens, true);
      assert [r] + line + tokens == [r] + (line + tokens);
    } else if depth > 0 {
      assert Reads(t, text, depth, false);
      assert [] + tokens == tokens;
    } else {
      assert Reads(u, text, 0, false);
      OneYields(t, u, r, tokens, false);
    }
  }

  /** ... and when it is the end of a line. */
  lemma {:induction false} BreakYields(t: State, text: seq<ascii>, depth: nat, wantComment: bool,
      tokens: seq<Result_>, line: seq<Result_>)
    requires Reads(t, [10] + text, depth, wantComment)
    requires forall u | Reads(u, text, depth, wantComment) :: Yields(u, tokens, wantComment)
    requires line == if depth > 0 then [] else [Success(Token(Eol, [10], false, None))]
    ensures Yields(t, line + tokens, wantComment)
  {
    hide Get, Tokens, Yields;
    if depth > 0 {
      Passed(Break, text, depth, wantComment);
      assert Reads(t, text, depth, wantComment) && line + tokens == tokens;
    } else {
      LineEnds(text, wantComment);
      var (u, r) := Get(t, false, wantComment);
      assert Reads(u, text, 0, wantComment) && line == [r];
      OneYields(t, u, r, tokens, wantComment);
    }
  }

  lemma {:induction false} TokenYields(t: State, p: Piece, text: seq<ascii>, depth: nat, wantComment: bool,
      tokens: seq<Result_>)
    requires PieceOk(p) && (p.Word? || p.Str?) && (p.Word? ==> WordEnds(text))
    requires Reads(t, PieceText(p) + text, depth, wantComment)
    requires forall u | Reads(u, text, depth, wantComment) :: Yields(u, tokens, wantComment)
    ensures Yields(t, [Success(if p.Word? then WordToken(p.word) else StringToken(p.octets))] + tokens, wantComment)
  {
    hide Get, Tokens, Yields, Letters, Quoted, WordToken, StringToken;
    if p.Word? {
      WordRead(p.word, text, depth, wantComment);
    } else {
      StringRead(p.octets, text, depth, wantComment);
    }
    var (u, r) := Get(t, false, wantComment);
    OneYields(t, u, r, tokens, wantComment);
  }

  /** A closing parenthesis without an opening one. */
  lemma Unmatched(t: State, text: seq<ascii>, wantComment: bool)
    requires Reads(t, [41] + text, 0, wantComment)
    ensures Yields(t, [Failure(SyntaxError)], wantComment)
  {
    Parenthesis(text, 0, wantComment);
    TokensFirst(t, 1, wantComment);
    hide Get;
    assert Tokens(Get(t, false, wantComment).0, 0, wantComment) == [];
  }

  /** A text of any words, strings, blanks, parentheses, comments and lines is tokenized into exactly
      what its pieces mean. */
  lemma {:induction false} TextTokenized(t: State, pieces: seq<Piece>, last: Option<seq<ascii>>, depth: nat,
      wantComment: bool)
    requires WellSpaced(pieces) && (last.Some? ==> NEWLINE !in last.value)
    requires Reads(t, TextOf(pieces, last), depth, wantComment)
    ensures Yields(t, Meaning(pieces, last, depth, wantComment), wantComment)
    decreases pieces
  {
    hide Get, Tokens, TextOf, WellSpaced, Yields, PieceOk, WordEnds, WordToken, StringToken;
    if pieces == [] {
      LastTokens(t, last, depth, wantComment);
    } else {
      TextFirst(pieces, last);
      var (p, rest, text) := (pieces[0], pieces[1..], TextOf(pieces[1..], last));
      var next := if p.Opening? then depth + 1 else if p.Closing? && depth > 0 then depth - 1 else depth;
      var tokens := Meaning(rest, last, next, wantComment);
      forall u | Reads(u, text, next, wantComment)
        ensures Yields(u, tokens, wantComment)
      {
        TextTokenized(u, rest, last, next, wantComment);
      }
      var line := if depth > 0 then [] else [Success(Token(Eol, [10], false, None))];
      match p
      case Word(_) => TokenYields(t, p, text, depth, wantComment, tokens);
      case Str(_) => TokenYields(t, p, text, depth, wantComment, tokens);
      case Blank(_) => Passed(p, text, depth, wantComment);
      case Opening => Parenthesis(text, depth, wantComment);
      case Closing =>
        if depth > 0 {
          Parenthesis(text, depth, wantComment);
        } else {
          Unmatched(t, text, wantComment);
        }
      case Break => BreakYields(t, text, depth, wantComment, tokens, line);
      case Remark(c) =>
        RemarkPlain(p);
        RemarkYields(t, c, text, depth, wantComment, tokens, line);
    }
  }

  lemma RemarkPlain(p: Piece)
    requires PieceOk(p) && p.Remark?
    ensures NEWLINE !in p.remark
  {
  }

  /** ... from the start of a text. */
  lemma {:induction false} WholeText(pieces: seq<Piece>, last: Option<seq<ascii>>, wantComment: bool)
    requires WellSpaced(pieces) && (last.Some? ==> NEWLINE !in last.value)
    ensures var meaning := Meaning(pieces, last, 0, wantComment);
            Tokens(Start(TextOf(pieces, last)), |meaning|, wantComment) == meaning
  {
    TextTokenized(Start(TextOf(pieces, last)), pieces, last, 0, wantComment);
    hide Get, Tokens;
  }

  // ---------- Strings and names ----------

  /** The strings quoted, with spaces between them. */
  function QuotedAll(strings: seq<seq<byte>>): seq<ascii> {
    if strings == [] then []
    else if |strings| == 1 then Quoted(strings[0])
    else Quoted(strings[0]) + [32] + QuotedAll(strings[1..])
  }

  function StringPieces(strings: seq<seq<byte>>): seq<Piece> {
    if strings == [] then []
    else if |strings| == 1 then [Str(strings[0])]
    else [Str(strings[0]), Blank(false)] + StringPieces(strings[1..])
  }

  /** The tokens of quoted strings, and the end. */
  function Expected(strings: seq<seq<byte>>): seq<Result_> {
    if strings == [] then [Success(Token(Eof, [], false, None))]
    else [Success(StringToken(strings[0]))] + Expected(strings[1..])
  }

  lemma {:induction false} StringsMean(strings: seq<seq<byte>>)
    ensures var pieces := StringPieces(strings);
            && WellSpaced(pieces) && TextOf(pieces, None) == QuotedAll(strings)
            && Meaning(pieces, None, 0, false) == Expected(strings) && |Expected(strings)| == |strings| + 1
    decreases strings
  {
    hide Quoted;
    if |strings| == 1 {
      assert StringPieces(strings)[1..] == [] && strings[1..] == [];
      assert TextOf(StringPieces(strings), None) == Quoted(strings[0]) + [];
    } else if strings != [] {
      StringsMean(strings[1..]);
      var (pieces, rest) := (StringPieces(strings), StringPieces(strings[1..]));
      assert pieces[1..] == [Blank(false)] + rest && pieces[1..][1..] == rest;
      assert TextOf(pieces, None) == Quoted(strings[0]) + ([32] + QuotedAll(strings[1..]));
    }
  }

  /** Whatever octets the strings hold: escaped, quoted, separated by spaces and tokenized, they come
      back one by one as quoted strings that unescape to them, and then the end. */
  lemma {:induction false} QuotedRoundTrip(strings: seq<seq<byte>>)
    ensures Tokens(Start(QuotedAll(strings)), |strings| + 1, false) == Expected(strings)
    ensures forall s | s in strings :: UnescapeFrom([], StringToken(s).value) == Success(s)
  {
    forall s | s in strings
      ensures UnescapeFrom([], StringToken(s).value) == Success(s)
    {
      StringUnescaped([], s);
      assert [] + s == s;
    }
    StringsMean(strings);
    hide Tokens, Meaning, TextOf, QuotedAll, Expected, StringPieces, WellSpaced;
    WholeText(StringPieces(strings), None, false);
  }

  predicate AllAscii(w: seq<byte>) {
    forall i | 0 <= i < |w| :: w[i] < 128
  }

  lemma {:induction false} LettersAppend(a: seq<byte>, b: seq<byte>)
    requires Letters(a) && Letters(b)
    ensures Letters(a + b)
    decreases |a|
  {
    if a == [] {
      assert a + b == b;
    } else if a[0] == 92 {
      assert (a + b)[2..] == a[2..] + b;
      LettersAppend(a[2..], b);
    } else {
      assert (a + b)[1..] == a[1..] + b;
      LettersAppend(a[1..], b);
    }
  }

  lemma OctetLetters(c: byte)
    ensures Letters(NameText.EscapedOctet(c)) && AllAscii(NameText.EscapedOctet(c))
  {
    var text := NameText.EscapedOctet(c);
    if |text| == 1 {
      assert text[1..] == [];
    } else if |text| == 2 {
      assert text[2..] == [];
    } else {
      var d := ThreeDigits(c);
      assert text == [92, d[0], d[1], d[2]] && text[2..] == [d[1], d[2]];
      assert [d[1], d[2]][1..] == [d[2]] && [d[2]][1..] == [];
      assert Letters([d[2]]) && Letters([d[1], d[2]]);
    }
  }

  lemma {:induction false} LabelLetters(lbl: Label)
    ensures Letters(NameText.Escaped(lbl)) && AllAscii(NameText.Escaped(lbl))
    decreases lbl
  {
    if lbl != [] {
      OctetLetters(lbl[0]);
      LabelLetters(lbl[1..]);
      LettersAppend(NameText.EscapedOctet(lbl[0]), NameText.Escaped(lbl[1..]));
    }
  }

  lemma {:induction false} JoinedLetters(labels: seq<Label>)
    ensures Letters(NameText.Joined(labels)) && AllAscii(NameText.Joined(labels))
    decreases labels
  {
    hide NameText.Escaped;
    if labels != [] {
      LabelLetters(labels[0]);
      if |labels| > 1 {
        JoinedLetters(labels[1..]);
        assert [DOT][1..] == [] && Letters([DOT]);
        LettersAppend(NameText.Escaped(labels[0]), [DOT]);
        LettersAppend(NameText.Escaped(labels[0]) + [DOT], NameText.Joined(labels[1..]));
      }
    }
  }

  /** The text of any valid name, whatever octets its labels hold, is one word. */
  lemma {:induction false} NameIsOneToken(labels: seq<Label>, omitFinalDot: bool, wantComment: bool)
    returns (text: seq<ascii>)
    requires ValidName(labels)
    ensures text == NameText.ToText(labels, omitFinalDot)
    ensures Tokens(Start(text), 2, wantComment) == [Success(WordToken(text)), Success(Token(Eof, [], false, None))]
  {
    var octets := NameText.ToText(labels, omitFinalDot);
    NameLetters(labels, omitFinalDot);
    text := octets;
    var pieces := [Word(text)];
    assert pieces[1..] == [] && TextOf(pieces, None) == text + [] == text;
    assert Meaning(pieces, None, 0, wantComment) == [Success(WordToken(text))] + [Success(Token(Eof, [], false, None))];
    hide Tokens, Letters, NameText.ToText;
    assert WellSpaced(pieces);
    WholeText(pieces, None, wantComment);
  }

  lemma NameLetters(labels: seq<Label>, omitFinalDot: bool)
    requires ValidName(labels)
    ensures var text := NameText.ToText(labels, omitFinalDot);
            text != [] && Letters(text) && AllAscii(text)
  {
    if labels != [] && labels != [[]] {
      assert labels == [labels[0]] + labels[1..];
      var shown := if omitFinalDot && IsAbsolute(labels) then labels[..|labels| - 1] else labels;
      assert shown != [] && shown[0] == labels[0] != [];
      JoinedLetters(shown);
      NameText.NotSpecial(shown);
    } else {
      assert [NameText.AT][1..] == [] && [DOT][1..] == [];
      assert Letters([NameText.AT]) && Letters([DOT]);
    }
  }
}
