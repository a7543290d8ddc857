/** The tokenizer of `dns/tokenizer.py`, on ASCII text, and the quoted strings of `dns/rdata.py`. */
module Tokenizers {
  import opened Wrappers
  import opened Names
  import opened Ascii

  const TAB: ascii := 9
  const SPACE: ascii := 32
  const QUOTE: ascii := 34
  const OPEN: ascii := 40
  const CLOSE: ascii := 41
  const SEMICOLON: ascii := 59

  function Delimiters(quoting: bool): set<ascii> {
    if quoting then {QUOTE} else {SPACE, TAB, NEWLINE, SEMICOLON, OPEN, CLOSE, QUOTE}
  }

  datatype Kind = Eof | Eol | Whitespace | Identifier | QuotedString | Comment | Delimiter

  datatype Token = Token(kind: Kind, value: seq<ascii>, hasEscape: bool, comment: Option<seq<ascii>>)

  datatype TokenError = UnexpectedEnd | SyntaxError

  // ---------- The tokenizer as a value ----------

  // A character, or nothing at the end of the text.
  type Char = Option<ascii>

  datatype State = State(
    rest: seq<ascii>, ungotten: Option<Char>, multiline: nat, quoting: bool, eof: bool, ungottenToken: Option<Token>)

  function Start(text: seq<ascii>): State {
    State(text, None, 0, false, false, None)
  }

  /** The characters still to be read. */
  function Remaining(t: State): nat {
    |t.rest| + if t.ungotten.Some? && t.ungotten.value.Some? then 1 else 0
  }

  function GetChar(t: State): (r: (State, Char))
    ensures r.0.ungotten.None? && r.0.multiline == t.multiline && r.0.quoting == t.quoting
    ensures r.1.Some? ==> Remaining(r.0) == Remaining(t) - 1
    ensures r.1.None? ==> Remaining(r.0) == Remaining(t)
  {
    if t.ungotten.Some? then (t.(ungotten := None), t.ungotten.value)
    else if t.eof then (t, None)
    else if t.rest == [] then (t.(eof := true), None)
    else (t.(rest := t.rest[1..]), Some(t.rest[0]))
  }

  function Unget(t: State, c: Char): State {
    t.(ungotten := Some(c))
  }

  function SkipWhitespace(t: State): (r: (State, nat))
    ensures Remaining(r.0) <= Remaining(t)
    decreases Remaining(t)
  {
    var (u, c) := GetChar(t);
    if c == Some(SPACE) || c == Some(TAB) || (c == Some(NEWLINE) && u.multiline > 0) then
      var (v, n) := SkipWhitespace(u);
      (v, n + 1)
    else (Unget(u, c), 0)
  }

  /** What a comment holds, and the newline or the end of the text that ends it. */
  function ReadComment(t: State, token: seq<ascii>): (r: (State, seq<ascii>, Char))
    ensures Remaining(r.0) <= Remaining(t) && r.0.ungotten.None?
    decreases Remaining(t)
  {
    var (u, c) := GetChar(t);
    if c == Some(NEWLINE) || c == None then (u, token, c) else ReadComment(u, token + [c.value])
  }

  type Outcome = (State, Result<Token, TokenError>)

  function Plain(kind: Kind, value: seq<ascii>): Token {
    Token(kind, value, false, None)
  }

  function Finish(t: State, token: seq<ascii>, kind: Kind, hasEscape: bool): Outcome {
    if token == [] && kind != QuotedString then
      if t.multiline > 0 then (t, Failure(SyntaxError)) else (t, Success(Token(Eof, token, hasEscape, None)))
    else (t, Success(Token(kind, token, hasEscape, None)))
  }

  /** The main loop, from a token begun. */
  function Loop(t: State, token: seq<ascii>, kind: Kind, hasEscape: bool, wantComment: bool): Outcome
    decreases Remaining(t), 0
  {
    var (u, c) := GetChar(t);
    if c.None? || c.value in Delimiters(u.quoting) then
      if c.None? && u.quoting then (u, Failure(UnexpectedEnd))
      else if token == [] && kind != QuotedString then
        if c.None? then Finish(u, [], Delimiter, hasEscape)
        else AtDelimiter(u, c.value, kind, hasEscape, wantComment)
      else Finish(Unget(u, c), token, kind, hasEscape)
    else if u.quoting && c.value == NEWLINE then (u, Failure(SyntaxError))
    else if c.value == BACKSLASH then
      var (v, d) := GetChar(u);
      if d.None? || (d.value == NEWLINE && !v.quoting) then (v, Failure(UnexpectedEnd))
      else Loop(v, token + [BACKSLASH, d.value], kind, true, wantComment)
    else Loop(u, token + [c.value], kind, hasEscape, wantComment)
  }

  /** A delimiter before any token. */
  function AtDelimiter(u: State, c: ascii, kind: Kind, hasEscape: bool, wantComment: bool): Outcome
    requires u.ungotten.None?
    decreases Remaining(u), 1
  {
    if c == OPEN then Loop(SkipWhitespace(u.(multiline := u.multiline + 1)).0, [], kind, hasEscape, wantComment)
    else if c == CLOSE then
      if u.multiline == 0 then (u, Failure(SyntaxError))
      else Loop(SkipWhitespace(u.(multiline := u.multiline - 1)).0, [], kind, hasEscape, wantComment)
    else if c == QUOTE then
      if !u.quoting then Loop(u.(quoting := true), [], QuotedString, hasEscape, wantComment)
      else Loop(SkipWhitespace(u.(quoting := false)).0, [], kind, hasEscape, wantComment)
    else if c == NEWLINE then (u, Success(Plain(Eol, [NEWLINE])))
    else if c == SEMICOLON then
      var (v, comment, last) := ReadComment(u, []);
      if wantComment then (Unget(v, last), Success(Plain(Comment, comment)))
      else if last.None? then
        if v.multiline > 0 then (v, Failure(SyntaxError)) else (v, Success(Token(Eof, [], false, Some(comment))))
      else if v.multiline > 0 then Loop(SkipWhitespace(v).0, [], kind, hasEscape, wantComment)
      else (v, Success(Token(Eol, [NEWLINE], false, Some(comment))))
    else Finish(u, [c], Delimiter, hasEscape)
  }

  function Fresh(t: State, wantLeading: bool, wantComment: bool): Outcome {
    var (u, skipped) := SkipWhitespace(t);
    if wantLeading && skipped > 0 then (u, Success(Plain(Whitespace, [SPACE])))
    else Loop(u, [], Identifier, false, wantComment)
  }

  /** `Tokenizer.get`. */
  function Get(t: State, wantLeading: bool, wantComment: bool): Outcome {
    if t.ungottenToken.Some? then
      var token := t.ungottenToken.value;
      var u := t.(ungottenToken := None);
      if (token.kind == Whitespace && !wantLeading) || (token.kind == Comment && !wantComment)
      then Fresh(u, wantLeading, wantComment)
      else (u, Success(token))
    else Fresh(t, wantLeading, wantComment)
  }

  // ---------- The tokenizer as an object ----------

  class Tokenizer {
    var rest: seq<ascii>
    var ungotten: Option<Char>
    var multiline: nat
    var quoting: bool
    var eof: bool
    var ungottenToken: Option<Token>
    var delimiters: set<ascii>

    ghost function Abstract(): State
      reads this
    {
      State(rest, ungotten, multiline, quoting, eof, ungottenToken)
    }

    /** What ends a token depends on whether a quoted string is being read. */
    ghost predicate Valid()
      reads this
    {
      delimiters == Delimiters(quoting)
    }

    constructor (text: seq<ascii>)
      ensures Valid() && Abstract() == Start(text)
    {
      rest := text;
      ungotten, ungottenToken := None, None;
      multiline, quoting, eof := 0, false, false;
      delimiters := Delimiters(false);
    }

    method NextChar() returns (c: Char)
      modifies `rest, `ungotten, `eof
      ensures (Abstract(), c) == GetChar(old(Abstract()))
    {
      if ungotten.Some? {
        c := ungotten.value;
        ungotten := None;
      } else if eof || rest == [] {
        eof := true;
        c := None;
      } else {
        c := Some(rest[0]);
        rest := rest[1..];
      }
    }

    /** The buffer for a character put back is never full: that is an error that cannot happen. */
    method PutBack(c: Char)
      requires ungotten.None?
      modifies `ungotten
      ensures Abstract() == Unget(old(Abstract()), c)
    {
      ungotten := Some(c);
    }

    method Skip() returns (skipped: nat)
      modifies `rest, `ungotten, `eof
      ensures (Abstract(), skipped) == SkipWhitespace(old(Abstract()))
    {
      skipped := 0;
      ghost var all := SkipWhitespace(Abstract());
      while true
        invariant all == (SkipWhitespace(Abstract()).0, skipped + SkipWhitespace(Abstract()).1)
        invariant multiline == old(multiline) && quoting == old(quoting) && ungottenToken == old(ungottenToken)
        decreases Remaining(Abstract())
      {
        var c := NextChar();
        if c != Some(SPACE) && c != Some(TAB) {
          if c != Some(NEWLINE) || multiline == 0 {
            PutBack(c);
            return;
          }
        }
        skipped := skipped + 1;
      }
    }

    method SkipComment() returns (comment: seq<ascii>, last: Char)
      modifies `rest, `ungotten, `eof
      ensures (Abstract(), comment, last) == ReadComment(old(Abstract()), [])
    {
      comment := [];
      ghost var all := ReadComment(Abstract(), []);
      while true
        invariant all == ReadComment(Abstract(), comment)
        invariant multiline == old(multiline) && quoting == old(quoting) && ungottenToken == old(ungottenToken)
        decreases Remaining(Abstract())
      {
        last := NextChar();
        if last == Some(NEWLINE) || last == None {
          return;
        }
        comment := comment + [last.value];
      }
    }

    method FinishToken(token: seq<ascii>, kind: Kind, hasEscape: bool) returns (r: Result<Token, TokenError>)
      ensures (Abstract(), r) == Finish(Abstract(), token, kind, hasEscape)
    {
      var ttype := kind;
      if token == [] && ttype != QuotedString {
        if multiline > 0 {
          return Failure(SyntaxError);
        }
        ttype := Eof;
      }
      return Success(Token(ttype, token, hasEscape, None));
    }

    /** What the main loop does with a delimiter before any token: it goes on, or it is done. */
    method MeetDelimiter(c: ascii, kind: Kind, hasEscape: bool, wantComment: bool)
      returns (r: Option<Result<Token, TokenError>>, ttype: Kind)
      requires Valid() && ungotten.None? && c in delimiters
      modifies this
      ensures Valid() && (r.None? ==> Remaining(Abstract()) <= old(Remaining(Abstract())))
      ensures AtDelimiter(old(Abstract()), c, kind, hasEscape, wantComment)
              == if r.Some? then (Abstract(), r.value) else Loop(Abstract(), [], ttype, hasEscape, wantComment)
    {
      hide Loop, SkipWhitespace, ReadComment;
      ttype := kind;
      if c == OPEN {
        multiline := multiline + 1;
        var _ := Skip();
      } else if c == CLOSE {
        if multiline == 0 {
          return Some(Failure(SyntaxError)), ttype;
        }
        multiline := multiline - 1;
        var _ := Skip();
      } else if c == QUOTE {
        if !quoting {
          quoting := true;
          delimiters := Delimiters(true);
          ttype := QuotedString;
        } else {
          quoting := false;
          delimiters := Delimiters(false);
          var _ := Skip();
        }
      } else if c == NEWLINE {
        return Some(Success(Plain(Eol, [NEWLINE]))), ttype;
      } else if c == SEMICOLON {
        var comment, last := SkipComment();
        if wantComment {
          PutBack(last);
          return Some(Success(Plain(Comment, comment))), ttype;
        } else if last.None? {
          if multiline > 0 {
            return Some(Failure(SyntaxError)), ttype;
          }
          return Some(Success(Token(Eof, [], false, Some(comment)))), ttype;
        } else if multiline > 0 {
          var _ := Skip();
        } else {
          return Some(Success(Token(Eol, [NEWLINE], false, Some(comment)))), ttype;
        }
      } else {
        var token := FinishToken([c], Delimiter, hasEscape);
        return Some(token), ttype;
      }
      return None, ttype;
    }

    method MainLoop(wantComment: bool) returns (r: Result<Token, TokenError>)
      requires Valid()
      modifies this
      ensures Valid() && (Abstract(), r) == Loop(old(Abstract()), [], Identifier, false, wantComment)
    {
      var token: seq<ascii>, ttype, hasEscape := [], Identifier, false;
      hide AtDelimiter, Finish, Delimiters;
      while true
        invariant Valid()
        invariant Loop(Abstract(), token, ttype, hasEscape, wantComment)
                  == Loop(old(Abstract()), [], Identifier, false, wantComment)
        decreases Remaining(Abstract())
      {
        var c := NextChar();
        if c.None? || c.value in delimiters {
          if c.None? && quoting {
            return Failure(UnexpectedEnd);
          }
          if token == [] && ttype != QuotedString {
            if c.None? {
              r := FinishToken([], Delimiter, hasEscape);
              return;
            }
            var met;
            met, ttype := MeetDelimiter(c.value, ttype, hasEscape, wantComment);
            if met.Some? {
              return met.value;
            }
          } else {
            PutBack(c);
            r := FinishToken(token, ttype, hasEscape);
            return;
          }
        } else if quoting && c.value == NEWLINE {
          return Failure(SyntaxError);
        } else if c.value == BACKSLASH {
          hasEscape := true;
          var d := NextChar();
          if d.None? || (d.value == NEWLINE && !quoting) {
            return Failure(UnexpectedEnd);
          }
          token := token + [c.value, d.value];
        } else {
          token := token + [c.value];
        }
      }
    }

    method ReadToken(wantLeading: bool, wantComment: bool) returns (r: Result<Token, TokenError>)
      requires Valid()
      modifies this
      ensures Valid() && (Abstract(), r) == Fresh(old(Abstract()), wantLeading, wantComment)
    {
      hide Loop, SkipWhitespace;
      var skipped := Skip();
      if wantLeading && skipped > 0 {
        return Success(Plain(Whitespace, [SPACE]));
      }
      r := MainLoop(wantComment);
    }

    method GetToken(wantLeading: bool, wantComment: bool) returns (r: Result<Token, TokenError>)
      requires Valid()
      modifies this
      ensures Valid() && (Abstract(), r) == Get(old(Abstract()), wantLeading, wantComment)
    {
      hide Fresh;
      if ungottenToken.Some? {
        var token := ungottenToken.value;
        ungottenToken := None;
        if token.kind == Whitespace {
          if wantLeading {
            return Success(token);
          }
        } else if token.kind == Comment {
          if wantComment {
            return Success(token);
          }
        } else {
          return Success(token);
        }
      }
      r := ReadToken(wantLeading, wantComment);
    }
  }

  // ---------- Escapes ----------

  function Decimal(a: ascii, b: ascii, c: ascii): int {
    (a as int - 48) * 100 + (b as int - 48) * 10 + (c as int - 48)
  }

  /** The octets of a token's value, after those done already. */
  function UnescapeFrom(done: seq<byte>, value: seq<ascii>): Result<seq<byte>, TokenError>
    decreases |value|
  {
    if value == [] then Success(done)
    else if value[0] != BACKSLASH then UnescapeFrom(done + [value[0]], value[1..])
    else if |value| < 2 then Failure(UnexpectedEnd)
    else if !IsDigit(value[1]) then UnescapeFrom(done + [value[1]], value[2..])
    else if |value| < 4 then Failure(UnexpectedEnd)
    else if !IsDigit(value[2]) || !IsDigit(value[3]) then Failure(SyntaxError)
    else if Decimal(value[1], value[2], value[3]) > 255 then Failure(SyntaxError)
    else UnescapeFrom(done + [Decimal(value[1], value[2], value[3])], value[4..])
  }

  method UnescapeToBytes(value: seq<ascii>) returns (r: Result<seq<byte>, TokenError>)
    ensures r == UnescapeFrom([], value)
  {
    var unescaped: seq<byte> := [];
    var i := 0;
    while i < |value|
      invariant i <= |value|
      invariant UnescapeFrom(unescaped, value[i..]) == UnescapeFrom([], value)
    {
      var c := value[i];
      ghost var before := i;
      i := i + 1;
      if c == BACKSLASH {
        if i >= |value| {
          return Failure(UnexpectedEnd);
        }
        c := value[i];
        i := i + 1;
        if IsDigit(c) {
          if i >= |value| {
            return Failure(UnexpectedEnd);
          }
          var c2 := value[i];
          i := i + 1;
          if i >= |value| {
            return Failure(UnexpectedEnd);
          }
          var c3 := value[i];
          i := i + 1;
          if !(IsDigit(c2) && IsDigit(c3)) {
            return Failure(SyntaxError);
          }
          var codepoint := Decimal(c, c2, c3);
          if codepoint > 255 {
            return Failure(SyntaxError);
          }
          unescaped := unescaped + [codepoint];
        } else {
          unescaped := unescaped + [c];
        }
      } else {
        unescaped := unescaped + [c];
      }
      assert value[before..][i - before..] == value[i..];
    }
    return Success(unescaped);
  }

  // ---------- Quoted strings ----------

  function EscapedOctet(c: byte): seq<ascii> {
    if c == QUOTE || c == BACKSLASH then [BACKSLASH, c]
    else if 0x20 <= c < 0x7F then [c]
    else [BACKSLASH] + ThreeDigits(c)
  }

  function Escaped(s: seq<byte>): seq<ascii> {
    if s == [] then [] else EscapedOctet(s[0]) + Escaped(s[1..])
  }

  method Escapify(s: seq<byte>) returns (text: seq<ascii>)
    ensures text == Escaped(s)
  {
    hide ThreeDigits;
    text := [];
    for i := 0 to |s|
      invariant text + Escaped(s[i..]) == Escaped(s)
    {
      var c := s[i];
      assert s[i..][1..] == s[i + 1..];
      assert text + (EscapedOctet(c) + Escaped(s[i + 1..])) == text + EscapedOctet(c) + Escaped(s[i + 1..]);
      if c == QUOTE || c == BACKSLASH {
        text := text + [BACKSLASH, c];
      } else if c >= 0x20 && c < 0x7F {
        text := text + [c];
      } else {
        text := text + ([BACKSLASH] + ThreeDigits(c));
      }
    }
  }

  function Quoted(s: seq<byte>): seq<ascii> {
    [QUOTE] + Escaped(s) + [QUOTE]
  }

  lemma {:induction false} OctetUnescaped(done: seq<byte>, c: byte, rest: seq<ascii>)
    ensures UnescapeFrom(done, EscapedOctet(c) + rest) == UnescapeFrom(done + [c], rest)
  {
    var text := EscapedOctet(c) + rest;
    if |EscapedOctet(c)| == 1 {
      assert text[1..] == rest;
    } else if |EscapedOctet(c)| == 2 {
      assert text[2..] == rest;
    } else {
      assert text[4..] == rest;
      assert text[1] == ThreeDigits(c)[0] && text[2] == ThreeDigits(c)[1] && text[3] == ThreeDigits(c)[2];
      assert Decimal(text[1], text[2], text[3]) == c;
    }
  }

  lemma {:induction false} StringUnescaped(done: seq<byte>, s: seq<byte>)
    ensures UnescapeFrom(done, Escaped(s)) == Success(done + s)
    decreases s
  {
    if s == [] {
      assert done + s == done;
    } else {
      OctetUnescaped(done, s[0], Escaped(s[1..]));
      StringUnescaped(done + [s[0]], s[1..]);
      assert done + [s[0]] + s[1..] == done + s;
    }
  }
}
