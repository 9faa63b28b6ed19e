/** The lexer and its token cursor (Honyac/TokenList.cs). The scan is
    specified by the function `Lex`; the class `TokenList` models the C# list
    with its `CurrentIndex` cursor, and its methods are proved against `Lex`
    and against the cursor contract. */
module Lexer {
  import opened Wrappers
  import opened Decimal
  import Int32

  datatype TokenKind = Reserved | Num

  datatype Token = Token(kind: TokenKind, value: int, str: string)

  /** .NET's `char.IsWhiteSpace`: the controls U+0009 to U+000D, the space,
      U+0085, and the space, line and paragraph separators. */
  predicate IsWhiteSpace(c: char) {
    if c <= ' ' then '\t' <= c <= '\r' || c == ' ' else IsWideWhiteSpace(c)
  }

  /** The white-space characters above the ASCII range. */
  predicate IsWideWhiteSpace(c: char) {
    c == '\U{0085}' || c == '\U{00A0}' || c == '\U{1680}' || '\U{2000}' <= c <= '\U{200A}' ||
    c == '\U{2028}' || c == '\U{2029}' || c == '\U{202F}' || c == '\U{205F}' || c == '\U{3000}'
  }

  /** The one-character operators `+ - * / ( )`. */
  predicate IsPunctuator(c: char) {
    c == '+' || c == '-' || c == '*' || c == '/' || c == '(' || c == ')'
  }

  /** The characters that may start a two-character comparison: `! > < =`. */
  predicate IsComparisonStart(c: char) {
    c == '!' || c == '>' || c == '<' || c == '='
  }

  /** `!=`, `>=`, `<=` and `==`. */
  predicate IsTwoCharOperator(c1: char, c2: char) {
    IsComparisonStart(c1) && c2 == '='
  }

  /** The token `t` is a `Reserved` token spelled `s`. */
  predicate IsReserved(t: Token, s: string) {
    t.kind == Reserved && t.str == s
  }

  /** The end of the maximal run of digits that starts at `i`. */
  function DigitRunEnd(s: string, i: nat): (j: nat)
    requires i <= |s|
    ensures i <= j <= |s|
    ensures DigitsIn(s, i, j)
    ensures j == |s| || !IsDigit(s[j])
    decreases |s| - i
  {
    if i < |s| && IsDigit(s[i]) then DigitRunEnd(s, i + 1) else i
  }

  function Cons(t: Token, r: Result<seq<Token>>): Result<seq<Token>> {
    if r.Ok? then Ok([t] + r.value) else Err
  }

  /** What the scan does at position `i`: skip a white-space character, emit
      one token and resume at `next`, or fail. A comparison character as the
      last character makes the source read past the end of the string, which
      is an error like any unrecognised character. */
  datatype Step = Skip | Emit(token: Token, next: nat) | Fail

  function StepAt(s: string, i: nat): (st: Step)
    requires i < |s|
    ensures st.Emit? ==> i < st.next <= |s|
  {
    var c := s[i];
    if IsWhiteSpace(c) then
      Skip
    else if IsPunctuator(c) then
      Emit(Token(Reserved, 0, [c]), i + 1)
    else if IsComparisonStart(c) && i + 1 == |s| then
      Fail
    else if IsComparisonStart(c) && IsTwoCharOperator(c, s[i + 1]) then
      Emit(Token(Reserved, 0, [c, s[i + 1]]), i + 2)
    else if c == '>' || c == '<' then
      Emit(Token(Reserved, 0, [c]), i + 1)
    else if IsDigit(c) then
      var j := DigitRunEnd(s, i);
      var v := RunValue(s, i, j);
      Emit(Token(Num, v, NatToString(v)), j)
    else
      Fail
  }

  /** The tokens produced by scanning `s` from position `i` to its end. */
  function LexFrom(s: string, i: nat): Result<seq<Token>>
    requires i <= |s|
    decreases |s| - i
  {
    if i == |s| then
      Ok([])
    else
      match StepAt(s, i)
      case Skip => LexFrom(s, i + 1)
      case Emit(t, j) => Cons(t, LexFrom(s, j))
      case Fail => Err
  }

  /** The token sequence of a whole source text. */
  function Lex(s: string): Result<seq<Token>> {
    LexFrom(s, 0)
  }

  /** The largest value denoted by a run of digits that starts at or after
      position `i` of `s`. */
  function LargestLiteralFrom(s: string, i: nat): nat
    requires i <= |s|
    decreases |s| - i
  {
    if i == |s| then
      0
    else
      var here := if IsDigit(s[i]) then RunValue(s, i, DigitRunEnd(s, i)) else 0;
      var rest := LargestLiteralFrom(s, i + 1);
      if here < rest then rest else here
  }

  /** Every run of digits in `s` denotes a value that fits a C# `int`, so the
      accumulation `value * 10 + digit` never wraps around. */
  predicate LiteralsFit(s: string) {
    LargestLiteralFrom(s, 0) <= Int32.Max
  }

  lemma {:induction false} LargestLiteralBound(s: string, i: nat, k: nat)
    requires i <= k < |s| && IsDigit(s[k])
    ensures RunValue(s, k, DigitRunEnd(s, k)) <= LargestLiteralFrom(s, i)
    decreases k - i
  {
    if i < k {
      LargestLiteralBound(s, i + 1, k);
    }
  }

  /** Every prefix of a run of digits in a text whose literals fit is within
      the `int` range. */
  lemma RunPrefixFits(s: string, start: nat, k: nat)
    requires LiteralsFit(s)
    requires start < |s| && IsDigit(s[start])
    requires start <= k <= DigitRunEnd(s, start)
    ensures DigitsIn(s, start, k) && RunValue(s, start, k) <= Int32.Max
  {
    LargestLiteralBound(s, 0, start);
    RunValuePrefix(s, start, k, DigitRunEnd(s, start));
  }

  function Prepend(prefix: seq<Token>, r: Result<seq<Token>>): Result<seq<Token>> {
    if r.Ok? then Ok(prefix + r.value) else Err
  }

  /** The inner loop of the scan: accumulates the maximal run of digits that
      starts at `start`, stopping at the end of the string or at a non-digit. */
  method ReadNumber(str: string, start: nat) returns (value: int, next: nat)
    requires LiteralsFit(str)
    requires start < |str| && IsDigit(str[start])
    ensures start < next == DigitRunEnd(str, start)
    ensures value == RunValue(str, start, next) <= Int32.Max
  {
    value := 0;
    next := start;
    while next < |str| && IsDigit(str[next])
      invariant start <= next <= |str|
      invariant DigitsIn(str, start, next)
      invariant value == RunValue(str, start, next)
      invariant DigitRunEnd(str, start) == DigitRunEnd(str, next)
      decreases |str| - next
    {
      // the C# int does not wrap around: the longer run still fits
      RunPrefixFits(str, start, next + 1);
      assert value * 10 + DigitValue(str[next]) <= Int32.Max;
      value := value * 10 + DigitValue(str[next]);
      next := next + 1;
    }
    RunPrefixFits(str, start, next);
  }

  lemma PrependCons(done: seq<Token>, t: Token, r: Result<seq<Token>>)
    ensures Prepend(done, Cons(t, r)) == Prepend(done + [t], r)
  {
    if r.Ok? {
      assert done + ([t] + r.value) == (done + [t]) + r.value;
    }
  }

  lemma PrependNothing(r: Result<seq<Token>>)
    ensures Prepend([], r) == r
  {
    if r.Ok? {
      assert [] + r.value == r.value;
    }
  }

  /** At a digit the scan emits one `Num` token for the whole run, printed as
      the C# `int.ToString` prints it. */
  lemma NumberStep(s: string, i: nat, value: int, j: nat)
    requires i < |s| && IsDigit(s[i])
    requires j == DigitRunEnd(s, i) && value == RunValue(s, i, j)
    ensures StepAt(s, i) == Emit(Token(Num, value, IntToString(value)), j)
  {
  }

  /** A step that fails makes the whole scan fail. */
  lemma FailStep(s: string, i: nat, done: seq<Token>)
    requires i < |s| && StepAt(s, i) == Fail
    ensures Prepend(done, LexFrom(s, i)) == Err
  {
  }

  /** One turn of the scanning loop that does not fail keeps its invariant:
      the tokens appended so far followed by the scan of the rest are the
      scan of the whole text. */
  lemma ScanAdvance(s: string, i: nat, done: seq<Token>, base: seq<Token>, before: seq<Token>,
                    after: seq<Token>, next: nat) returns (done': seq<Token>)
    requires i < |s| && before == base + done && Lex(s) == Prepend(done, LexFrom(s, i))
    requires match StepAt(s, i)
      case Skip => next == i + 1 && after == before
      case Emit(t, j) => next == j && after == before + [t]
      case Fail => false
    ensures i < next <= |s| && after == base + done'
    ensures Lex(s) == Prepend(done', LexFrom(s, next))
  {
    match StepAt(s, i)
    case Skip =>
      done' := done;
    case Emit(t, j) =>
      PrependCons(done, t, LexFrom(s, j));
      done' := done + [t];
  }

  class TokenList {
    var tokens: seq<Token>
    var currentIndex: nat

    /** The cursor never passes the end of the list. */
    ghost predicate Valid()
      reads this
    {
      currentIndex <= |tokens|
    }

    constructor ()
      ensures tokens == [] && currentIndex == 0
    {
      tokens := [];
      currentIndex := 0;
    }

    /** The token under the cursor, or none at the end (`Current`). */
    function Current(): (t: Option<Token>)
      reads this
      ensures t.Some? <==> currentIndex < |tokens|
      ensures t.Some? ==> t.value == tokens[currentIndex]
    {
      if currentIndex < |tokens| then Some(tokens[currentIndex]) else None
    }

    method AddToken(kind: TokenKind, value: int, str: string) returns (token: Token)
      modifies this`tokens
      ensures token == Token(kind, value, str)
      ensures tokens == old(tokens) + [token]
    {
      token := Token(kind, value, str);
      tokens := tokens + [token];
    }

    /** One turn of the scanning loop at `strIndex`: a white-space character
        is skipped, a recognised token is appended, and `next` is where the
        scan resumes; an unrecognised character gives no `next`. */
    method ScanAt(str: string, strIndex: nat) returns (next: Option<nat>)
      requires LiteralsFit(str) && strIndex < |str|
      modifies this`tokens
      ensures match StepAt(str, strIndex)
        case Skip => next == Some(strIndex + 1) && tokens == old(tokens)
        case Emit(t, j) => next == Some(j) && tokens == old(tokens) + [t]
        case Fail => next == None && tokens == old(tokens)
    {
      var c := str[strIndex];
      if IsWhiteSpace(c) {
        return Some(strIndex + 1);
      }
      if IsPunctuator(c) {
        var t := AddToken(Reserved, 0, [c]);
        return Some(strIndex + 1);
      }
      if IsComparisonStart(c) {
        if strIndex + 1 >= |str| {
          // the source reads past the end of the string here
          return None;
        }
        var c2 := str[strIndex + 1];
        if IsTwoCharOperator(c, c2) {
          var t := AddToken(Reserved, 0, [c, c2]);
          return Some(strIndex + 2);
        } else if c == '>' || c == '<' {
          var t := AddToken(Reserved, 0, [c]);
          return Some(strIndex + 1);
        }
      }
      if IsDigit(c) {
        var value, end := ReadNumber(str, strIndex);
        var t := AddToken(Num, value, IntToString(value));
        NumberStep(str, strIndex, value, end);
        return Some(end);
      }
      return None;
    }

    /** One left-to-right pass over `str`, appending each token as it is
        recognised. On an unrecognised character the pass stops with an error;
        the tokens appended so far are then of no use to anyone. */
    method TokenizeInternal(str: string) returns (ok: bool)
      requires LiteralsFit(str)
      modifies this
      ensures currentIndex == 0
      ensures old(tokens) <= tokens
      ensures ok <==> Lex(str).Ok?
      ensures ok ==> tokens == old(tokens) + Lex(str).value
    {
      currentIndex := 0;
      var strIndex := 0;
      ghost var done: seq<Token> := [];
      PrependNothing(LexFrom(str, 0));
      while strIndex < |str|
        invariant strIndex <= |str|
        invariant currentIndex == 0
        invariant tokens == old(tokens) + done
        invariant Lex(str) == Prepend(done, LexFrom(str, strIndex))
        decreases |str| - strIndex
      {
        ghost var before := tokens;
        var next := ScanAt(str, strIndex);
        if next.None? {
          FailStep(str, strIndex, done);
          return false;
        }
        done := ScanAdvance(str, strIndex, done, old(tokens), before, tokens, next.value);
        strIndex := next.value;
      }
      assert done + [] == done;
      ok := true;
    }

    /** `Tokenize`: a fresh list holding the tokens of `str`, with the cursor at
        the first of them, or the error that the scan raises. */
    static method Tokenize(str: string) returns (r: Result<TokenList>)
      requires LiteralsFit(str)
      ensures r.Ok? <==> Lex(str).Ok?
      ensures r.Ok? ==> fresh(r.value) && r.value.Valid()
      ensures r.Ok? ==> r.value.tokens == Lex(str).value && r.value.currentIndex == 0
    {
      var list := new TokenList();
      var ok := list.TokenizeInternal(str);
      if ok {
        r := Ok(list);
      } else {
        r := Err;
      }
    }

    /** `Consume(char)`: steps over the current token when it is the
        one-character `Reserved` token `op`. */
    method Consume(op: char) returns (b: bool)
      requires Valid()
      modifies this`currentIndex
      ensures Valid()
      ensures b <==> old(currentIndex) < |tokens| && IsReserved(tokens[old(currentIndex)], [op])
      ensures currentIndex == if b then old(currentIndex) + 1 else old(currentIndex)
    {
      var token := Current();
      if token.Some? && token.value.kind == Reserved && |token.value.str| == 1 && token.value.str[0] == op {
        currentIndex := currentIndex + 1;
        return true;
      }
      return false;
    }

    /** `Consume(string)`: steps over the current token when it is the
        `Reserved` token spelled `op`. */
    method ConsumeStr(op: string) returns (b: bool)
      requires Valid()
      modifies this`currentIndex
      ensures Valid()
      ensures b <==> old(currentIndex) < |tokens| && IsReserved(tokens[old(currentIndex)], op)
      ensures currentIndex == if b then old(currentIndex) + 1 else old(currentIndex)
    {
      var token := Current();
      if token.Some? && token.value.kind == Reserved && token.value.str == op {
        currentIndex := currentIndex + 1;
        return true;
      }
      return false;
    }

    /** `Expect(char)`: like `Consume(char)`, but a mismatch is an error
        raised before the cursor moves. */
    method Expect(op: char) returns (ok: bool)
      requires Valid()
      modifies this`currentIndex
      ensures Valid()
      ensures ok <==> old(currentIndex) < |tokens| && IsReserved(tokens[old(currentIndex)], [op])
      ensures currentIndex == if ok then old(currentIndex) + 1 else old(currentIndex)
    {
      var token := Current();
      if token.Some? && token.value.kind == Reserved && |token.value.str| == 1 && token.value.str[0] == op {
        currentIndex := currentIndex + 1;
        return true;
      }
      return false;
    }

    /** `ExpectNumber`: the value of the current `Num` token, stepping over
        it; any other token is an error raised before the cursor moves. */
    method ExpectNumber() returns (r: Result<int>)
      requires Valid()
      modifies this`currentIndex
      ensures Valid()
      ensures r.Ok? <==> old(currentIndex) < |tokens| && tokens[old(currentIndex)].kind == Num
      ensures r.Ok? ==> r.value == tokens[old(currentIndex)].value
      ensures currentIndex == if r.Ok? then old(currentIndex) + 1 else old(currentIndex)
    {
      var token := Current();
      if token.Some? && token.value.kind == Num {
        currentIndex := currentIndex + 1;
        return Ok(token.value.value);
      }
      return Err;
    }

    /** `IsEof`: the cursor has passed every token. */
    method IsEof() returns (b: bool)
      ensures b <==> currentIndex == |tokens|
    {
      return currentIndex == |tokens|;
    }
  }
}
