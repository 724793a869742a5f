/** The tokenizer of the label-selector language: a cursor over the input with
    `read`/`unread`, two scanning loops and `Lex`. The functions ending in `At` say what
    each step computes from a position; the `Lexer` class performs the steps in place. */
module SelectorLexer {
  import opened Wrappers
  import opened GoStrings

  datatype Token =
    | ErrorToken
    | EndOfStringToken
    | ClosedParToken
    | CommaToken
    | DoesNotExistToken
    | DoubleEqualsToken
    | EqualsToken
    | GreaterThanToken
    | IdentifierToken
    | InToken
    | LessThanToken
    | NotEqualsToken
    | NotInToken
    | OpenParToken

  datatype ScannedItem = ScannedItem(tok: Token, literal: string)

  /** `string2token`: the registered literals; none of them stands for an error or the end. */
  function LiteralToken(lit: string): (r: Option<Token>)
    ensures r.Some? ==> r.value != ErrorToken && r.value != EndOfStringToken
  {
    if lit == ")" then Some(ClosedParToken)
    else if lit == "," then Some(CommaToken)
    else if lit == "!" then Some(DoesNotExistToken)
    else if lit == "==" then Some(DoubleEqualsToken)
    else if lit == "=" then Some(EqualsToken)
    else if lit == ">" then Some(GreaterThanToken)
    else if lit == "in" then Some(InToken)
    else if lit == "<" then Some(LessThanToken)
    else if lit == "!=" then Some(NotEqualsToken)
    else if lit == "notin" then Some(NotInToken)
    else if lit == "(" then Some(OpenParToken)
    else None
  }

  predicate IsWhitespace(c: char) {
    c == ' ' || c == '\t' || c == '\r' || c == '\n'
  }

  predicate IsSpecialSymbol(c: char) {
    c == '=' || c == '!' || c == '(' || c == ')' || c == ',' || c == '>' || c == '<'
  }

  /** A character that ends an identifier: NUL, a special symbol or whitespace. */
  predicate EndsIdentifier(c: char) {
    c == NUL || IsSpecialSymbol(c) || IsWhitespace(c)
  }

  /** Apart from `notin`, every registered literal is one or two characters long; so a
      literal longer than two does not start with a special symbol. */
  lemma LongLiteralIsNotin(lit: string)
    ensures LiteralToken(lit).Some? ==> 1 <= |lit| && (|lit| > 2 ==> lit == "notin" && !IsSpecialSymbol(lit[0]))
  {
  }

  /** `read`: the character under the cursor, which then advances; NUL at the end. */
  function ReadAt(s: string, pos: nat): (r: (char, nat))
    requires pos <= |s|
  {
    if pos < |s| then (s[pos], pos + 1) else (NUL, pos)
  }

  /** The loop of `scanIDOrKeyword`: the characters up to the first one that ends an
      identifier. A NUL that ends it is consumed, anything else is pushed back. */
  function IdentifierRun(s: string, pos: nat): (r: (string, nat))
    requires pos <= |s|
    ensures pos + |r.0| <= |s| && r.0 == s[pos..pos + |r.0|]
    ensures forall i :: 0 <= i < |r.0| ==> !EndsIdentifier(r.0[i])
    ensures pos + |r.0| < |s| ==> EndsIdentifier(s[pos + |r.0|])
    ensures r.1 == if pos + |r.0| < |s| && s[pos + |r.0|] == NUL then pos + |r.0| + 1 else pos + |r.0|
    decreases |s| - pos
  {
    if pos == |s| then ("", pos)
    else if s[pos] == NUL then ("", pos + 1)
    else if IsSpecialSymbol(s[pos]) || IsWhitespace(s[pos]) then ("", pos)
    else
      var rest := IdentifierRun(s, pos + 1);
      ([s[pos]] + rest.0, rest.1)
  }

  /** One character of an identifier run: the end, a NUL, a terminator or one more character. */
  lemma IdentifierRunStep(s: string, pos: nat)
    requires pos <= |s|
    ensures pos == |s| ==> IdentifierRun(s, pos) == ("", pos)
    ensures pos < |s| && s[pos] == NUL ==> IdentifierRun(s, pos) == ("", pos + 1)
    ensures pos < |s| && s[pos] != NUL && (IsSpecialSymbol(s[pos]) || IsWhitespace(s[pos])) ==>
      IdentifierRun(s, pos) == ("", pos)
    ensures pos < |s| && !EndsIdentifier(s[pos]) ==>
      IdentifierRun(s, pos) == ([s[pos]] + IdentifierRun(s, pos + 1).0, IdentifierRun(s, pos + 1).1)
  {
  }

  lemma AppendAssociates(a: string, b: string, c: string)
    ensures a + (b + c) == (a + b) + c
  {
  }

  /** `scanIDOrKeyword` from `pos`: `in` and `notin` are keywords, any other run an identifier. */
  function ScanIDOrKeywordAt(s: string, pos: nat): (r: (ScannedItem, nat))
    requires pos <= |s|
    ensures r.0.literal == IdentifierRun(s, pos).0 && r.1 == IdentifierRun(s, pos).1
    ensures r.0.tok in {InToken, NotInToken, IdentifierToken}
    ensures r.0.tok == InToken <==> r.0.literal == "in"
    ensures r.0.tok == NotInToken <==> r.0.literal == "notin"
  {
    var run := IdentifierRun(s, pos);
    var buffer := run.0;
    match LiteralToken(buffer)
    case Some(t) =>
      assert buffer in {"in", "notin"} by {
        if |buffer| > 0 { assert !EndsIdentifier(buffer[0]); }
      }
      (ScannedItem(t, buffer), run.1)
    case None => (ScannedItem(IdentifierToken, buffer), run.1)
  }

  const ScanErrorPrefix: string := "error expected: keyword found '"

  /** What `scanSpecialSymbol` returns once its loop has stopped. */
  function FinishSpecial(buffer: string, last: ScannedItem): ScannedItem {
    if last.tok == ErrorToken then ScannedItem(ErrorToken, ScanErrorPrefix + buffer + "'") else last
  }

  /** The loop of `scanSpecialSymbol`: special symbols are added to `buffer` while the
      buffer stays a registered literal; the first one that does not extend it is pushed
      back. `last` is the longest literal seen so far. */
  function SpecialSymbolRun(s: string, pos: nat, buffer: string, last: ScannedItem): (r: (ScannedItem, nat))
    requires pos <= |s|
    ensures pos <= r.1 <= |s|
    decreases |s| - pos
  {
    if pos == |s| then (FinishSpecial(buffer, last), pos)
    else
      var ch := s[pos];
      if ch == NUL then (FinishSpecial(buffer, last), pos + 1)
      else if IsSpecialSymbol(ch) then
        var extended := buffer + [ch];
        match LiteralToken(extended)
        case Some(t) => SpecialSymbolRun(s, pos + 1, extended, ScannedItem(t, extended))
        case None =>
          if last.tok != ErrorToken then (FinishSpecial(extended, last), pos)
          else SpecialSymbolRun(s, pos + 1, extended, last)
      else (FinishSpecial(buffer, last), pos)
  }

  function ScanSpecialSymbolAt(s: string, pos: nat): (r: (ScannedItem, nat))
    requires pos <= |s|
    ensures pos <= r.1 <= |s|
  {
    SpecialSymbolRun(s, pos, "", ScannedItem(ErrorToken, ""))
  }

  /** How many special symbols follow `pos` without interruption. */
  function SpecialRunLength(s: string, pos: nat): (n: nat)
    requires pos <= |s|
    ensures pos + n <= |s|
    ensures forall i :: pos <= i < pos + n ==> IsSpecialSymbol(s[i])
    ensures pos + n < |s| ==> !IsSpecialSymbol(s[pos + n])
    decreases |s| - pos
  {
    if pos < |s| && IsSpecialSymbol(s[pos]) then 1 + SpecialRunLength(s, pos + 1) else 0
  }

  /** The `k` characters from `pos`. */
  function Window(s: string, pos: nat, k: nat): string
    requires pos + k <= |s|
  {
    s[pos..pos + k]
  }

  /** Where the longest registered literal starting at a special symbol ends. */
  function SpecialLiteralEnd(s: string, pos: nat): (e: nat)
    requires pos < |s| && IsSpecialSymbol(s[pos])
  {
    if pos + 1 < |s| && IsSpecialSymbol(s[pos + 1]) && LiteralToken(s[pos..pos + 2]).Some? then pos + 2 else pos + 1
  }

  /** The steps `scanSpecialSymbol` takes from a special symbol: it keeps the longest
      literal and consumes a NUL that follows it. */
  lemma ScanSpecialSymbolSteps(s: string, pos: nat)
    requires pos < |s| && IsSpecialSymbol(s[pos])
    ensures var e := SpecialLiteralEnd(s, pos);
      && LiteralToken(s[pos..e]).Some?
      && ScanSpecialSymbolAt(s, pos)
         == (ScannedItem(LiteralToken(s[pos..e]).value, s[pos..e]), if e < |s| && s[e] == NUL then e + 1 else e)
  {
    var one := s[pos..pos + 1];
    assert one == [s[pos]];
    var first := ScannedItem(LiteralToken(one).value, one);
    assert ScanSpecialSymbolAt(s, pos) == SpecialSymbolRun(s, pos + 1, one, first);
    if pos + 1 < |s| && IsSpecialSymbol(s[pos + 1]) {
      var two := s[pos..pos + 2];
      assert one + [s[pos + 1]] == two;
      if LiteralToken(two).Some? {
        var second := ScannedItem(LiteralToken(two).value, two);
        assert SpecialSymbolRun(s, pos + 1, one, first) == SpecialSymbolRun(s, pos + 2, two, second);
        if pos + 2 < |s| && IsSpecialSymbol(s[pos + 2]) {
          var three := two + [s[pos + 2]];
          LongLiteralIsNotin(three);
          assert three[0] == s[pos];
          assert LiteralToken(three).None?;
        }
      }
    }
  }

  /** A run of special symbols yields its longest prefix that is a registered literal
      (`!=` rather than `!` then `=`), so scanning one never fails. The cursor stops right
      after that literal, except that a NUL right after it is consumed. */
  lemma ScanSpecialSymbolLongest(s: string, pos: nat)
    requires pos < |s| && IsSpecialSymbol(s[pos])
    ensures var item := ScanSpecialSymbolAt(s, pos).0; var next := ScanSpecialSymbolAt(s, pos).1;
      && item.tok != ErrorToken
      && 1 <= |item.literal| <= SpecialRunLength(s, pos)
      && item.literal == Window(s, pos, |item.literal|)
      && LiteralToken(item.literal) == Some(item.tok)
      && (forall k :: |item.literal| < k <= SpecialRunLength(s, pos) ==> LiteralToken(Window(s, pos, k)).None?)
      && next == (if pos + |item.literal| < |s| && s[pos + |item.literal|] == NUL
                  then pos + |item.literal| + 1 else pos + |item.literal|)
  {
    ScanSpecialSymbolSteps(s, pos);
    var n := SpecialRunLength(s, pos);
    var e := SpecialLiteralEnd(s, pos);
    forall k | e - pos < k <= n
      ensures LiteralToken(Window(s, pos, k)).None?
    {
      var w := Window(s, pos, k);
      if k == 2 {
        assert IsSpecialSymbol(s[pos + 1]) && w == s[pos..pos + 2];
      } else {
        LongLiteralIsNotin(w);
        assert w[0] == s[pos];
      }
    }
  }

  /** The first position from `pos` on that does not hold whitespace. */
  function FirstNonBlank(s: string, pos: nat): (i: nat)
    requires pos <= |s|
    ensures pos <= i <= |s|
    ensures forall j :: pos <= j < i ==> IsWhitespace(s[j])
    ensures i < |s| ==> !IsWhitespace(s[i])
    decreases |s| - pos
  {
    if pos < |s| && IsWhitespace(s[pos]) then FirstNonBlank(s, pos + 1) else pos
  }

  /** `skipWhiteSpaces(ch)`: keeps reading while the character in hand is whitespace. */
  function SkipWhiteSpacesAt(s: string, ch: char, pos: nat): (r: (char, nat))
    requires pos <= |s|
    ensures !IsWhitespace(ch) ==> r == (ch, pos)
    ensures IsWhitespace(ch) ==> var i := FirstNonBlank(s, pos);
      r == if i < |s| then (s[i], i + 1) else (NUL, |s|)
    decreases |s| - pos, if IsWhitespace(ch) then 1 else 0
  {
    if !IsWhitespace(ch) then (ch, pos)
    else
      var read := ReadAt(s, pos);
      SkipWhiteSpacesAt(s, read.0, read.1)
  }

  /** `Lex` from `pos`: skips whitespace, then yields the end token at the end of the input
      or at a NUL, a special-symbol token, or a keyword or identifier. */
  function LexAt(s: string, pos: nat): (r: (ScannedItem, nat))
    requires pos <= |s|
    ensures pos <= r.1 <= |s|
    ensures r.0.tok != EndOfStringToken ==> r.1 > pos
    ensures pos == |s| ==> r.0 == ScannedItem(EndOfStringToken, "")
    ensures r.0.tok != ErrorToken
  {
    var read := ReadAt(s, pos);
    var skipped := SkipWhiteSpacesAt(s, read.0, read.1);
    var ch, p := skipped.0, skipped.1;
    if ch == NUL then (ScannedItem(EndOfStringToken, ""), p)
    else if IsSpecialSymbol(ch) then
      ScanSpecialSymbolLongest(s, p - 1);
      ScanSpecialSymbolAt(s, p - 1)
    else ScanIDOrKeywordAt(s, p - 1)
  }

  /** The `read` at the start of `Lex` followed by `skipWhiteSpaces` leaves in hand the
      first character that is not whitespace, with the cursor just past it. */
  lemma FirstCharAfterBlanks(s: string, pos: nat)
    requires pos <= |s|
    ensures var read := ReadAt(s, pos);
      var i := FirstNonBlank(s, pos);
      SkipWhiteSpacesAt(s, read.0, read.1) == if i < |s| then (s[i], i + 1) else (NUL, |s|)
  {
    if pos < |s| && IsWhitespace(s[pos]) {
      assert FirstNonBlank(s, pos) == FirstNonBlank(s, pos + 1);
    }
  }

  /** `Lex` yields the end token exactly when no character other than whitespace is left
      or the first such character is NUL. */
  lemma LexAtEnd(s: string, pos: nat)
    requires pos <= |s|
    ensures var i := FirstNonBlank(s, pos);
      LexAt(s, pos).0.tok == EndOfStringToken <==> i == |s| || s[i] == NUL
  {
    var i := FirstNonBlank(s, pos);
    FirstCharAfterBlanks(s, pos);
    if i < |s| && s[i] != NUL && IsSpecialSymbol(s[i]) {
      ScanSpecialSymbolLongest(s, i);
    }
  }

  /** After the whitespace, a special symbol starts an operator or punctuation token. */
  lemma LexAtSpecial(s: string, pos: nat)
    requires pos <= |s|
    ensures var i := FirstNonBlank(s, pos);
      i < |s| && IsSpecialSymbol(s[i]) ==> LexAt(s, pos) == ScanSpecialSymbolAt(s, i)
  {
    FirstCharAfterBlanks(s, pos);
  }

  /** After the whitespace, any other character but NUL starts an identifier or keyword. */
  lemma LexAtIdentifier(s: string, pos: nat)
    requires pos <= |s|
    ensures var i := FirstNonBlank(s, pos);
      i < |s| && s[i] != NUL && !IsSpecialSymbol(s[i]) ==> LexAt(s, pos) == ScanIDOrKeywordAt(s, i)
  {
    var i := FirstNonBlank(s, pos);
    if i < |s| && s[i] != NUL && !IsSpecialSymbol(s[i]) {
      FirstCharAfterBlanks(s, pos);
      var read := ReadAt(s, pos);
      var skipped := SkipWhiteSpacesAt(s, read.0, read.1);
      assert skipped.0 == s[i] && skipped.1 - 1 == i;
    }
  }

  /** A token stream as `scan` leaves it: it ends with the end token, holds no other end
      token and no error token. */
  predicate WellScanned(items: seq<ScannedItem>) {
    && |items| >= 1
    && items[|items| - 1].tok == EndOfStringToken
    && (forall i :: 0 <= i < |items| - 1 ==> items[i].tok != EndOfStringToken)
    && (forall i :: 0 <= i < |items| ==> items[i].tok != ErrorToken)
  }

  /** The tokens `scan` collects from `pos` on: `Lex` until the first end token. */
  function ScanFrom(s: string, pos: nat): (items: seq<ScannedItem>)
    requires pos <= |s|
    ensures WellScanned(items)
    decreases |s| - pos
  {
    var lexed := LexAt(s, pos);
    if lexed.0.tok == EndOfStringToken then [lexed.0]
    else [lexed.0] + ScanFrom(s, lexed.1)
  }

  /** The lexer's state: the input and the cursor. */
  class Lexer {
    const s: string
    var pos: nat

    ghost predicate Valid()
      reads this
    {
      pos <= |s|
    }

    constructor (input: string)
      ensures Valid() && s == input && pos == 0
    {
      s := input;
      pos := 0;
    }

    method Read() returns (b: char)
      requires Valid()
      modifies this
      ensures Valid() && (b, pos) == ReadAt(s, old(pos))
    {
      b := NUL;
      if pos < |s| {
        b := s[pos];
        pos := pos + 1;
      }
    }

    /** Undoes the last `Read`, which must have advanced the cursor. */
    method Unread()
      requires Valid() && pos > 0
      modifies this
      ensures Valid() && pos == old(pos) - 1
    {
      pos := pos - 1;
    }

    method ScanIDOrKeyword() returns (tok: Token, lit: string)
      requires Valid()
      modifies this
      ensures Valid() && (ScannedItem(tok, lit), pos) == ScanIDOrKeywordAt(s, old(pos))
    {
      var buffer: string := "";
      ghost var start := pos;
      assert buffer + IdentifierRun(s, pos).0 == IdentifierRun(s, pos).0;
      while true
        invariant Valid() && start <= pos
        invariant IdentifierRun(s, start).0 == buffer + IdentifierRun(s, pos).0
        invariant IdentifierRun(s, start).1 == IdentifierRun(s, pos).1
        decreases |s| - pos
      {
        ghost var here := pos;
        IdentifierRunStep(s, here);
        var ch := Read();
        if ch == NUL {
          break;
        } else if IsSpecialSymbol(ch) || IsWhitespace(ch) {
          Unread();
          break;
        } else {
          AppendAssociates(buffer, [ch], IdentifierRun(s, pos).0);
          buffer := buffer + [ch];
        }
      }
      ghost var scanned := ScanIDOrKeywordAt(s, start);
      assert scanned.0.literal == buffer && scanned.1 == pos;
      match LiteralToken(buffer)
      case Some(t) => tok, lit := t, buffer;
      case None => tok, lit := IdentifierToken, buffer;
      assert scanned.0.tok == tok;
    }

    method ScanSpecialSymbol() returns (tok: Token, lit: string)
      requires Valid()
      modifies this
      ensures Valid() && (ScannedItem(tok, lit), pos) == ScanSpecialSymbolAt(s, old(pos))
    {
      var last := ScannedItem(ErrorToken, "");
      var buffer: string := "";
      ghost var start := pos;
      while true
        invariant Valid()
        invariant SpecialSymbolRun(s, pos, buffer, last) == ScanSpecialSymbolAt(s, start)
        decreases |s| - pos
      {
        var ch := Read();
        if ch == NUL {
          break;
        } else if IsSpecialSymbol(ch) {
          buffer := buffer + [ch];
          match LiteralToken(buffer)
          case Some(t) =>
            last := ScannedItem(t, buffer);
          case None =>
            if last.tok != ErrorToken {
              Unread();
              break;
            }
        } else {
          Unread();
          break;
        }
      }
      if last.tok == ErrorToken {
        return ErrorToken, ScanErrorPrefix + buffer + "'";
      }
      return last.tok, last.literal;
    }

    method SkipWhiteSpaces(ch: char) returns (c: char)
      requires Valid()
      modifies this
      ensures Valid() && (c, pos) == SkipWhiteSpacesAt(s, ch, old(pos))
    {
      c := ch;
      while IsWhitespace(c)
        invariant Valid()
        invariant SkipWhiteSpacesAt(s, c, pos) == SkipWhiteSpacesAt(s, ch, old(pos))
        decreases |s| - pos, if IsWhitespace(c) then 1 else 0
      {
        c := Read();
      }
    }

    method Lex() returns (tok: Token, lit: string)
      requires Valid()
      modifies this
      ensures Valid() && (ScannedItem(tok, lit), pos) == LexAt(s, old(pos))
    {
      var first := Read();
      var ch := SkipWhiteSpaces(first);
      if ch == NUL {
        return EndOfStringToken, "";
      } else if IsSpecialSymbol(ch) {
        Unread();
        tok, lit := ScanSpecialSymbol();
      } else {
        Unread();
        tok, lit := ScanIDOrKeyword();
      }
    }
  }
}
