/** Properties of the scan `Lexer.Lex`: what each kind of character turns
    into, that white space only separates tokens, that printing well-formed
    tokens and scanning the text gives the tokens back, and which texts are
    rejected. */
module LexerFacts {
  import opened Wrappers
  import opened Decimal
  import opened Lexer

  /** The tokens the scan can produce: an operator spelled as in the source
      with value 0, or a number printed canonically. */
  predicate IsOperatorSpelling(str: string) {
    (|str| == 1 && (IsPunctuator(str[0]) || str[0] == '<' || str[0] == '>')) ||
    (|str| == 2 && IsTwoCharOperator(str[0], str[1]))
  }

  predicate WellFormedToken(t: Token) {
    match t.kind
    case Reserved => t.value == 0 && IsOperatorSpelling(t.str)
    case Num => t.value >= 0 && t.str == NatToString(t.value)
  }

  /** Each token's text followed by one space. */
  function Render(ts: seq<Token>): (s: string)
    ensures ts == [] ==> s == []
    ensures ts != [] ==> |s| > 0 && IsWhiteSpace(s[|s| - 1])
  {
    if ts == [] then [] else ts[0].str + " " + Render(ts[1..])
  }

  function Concat(r1: Result<seq<Token>>, r2: Result<seq<Token>>): Result<seq<Token>> {
    if r1.Ok? && r2.Ok? then Ok(r1.value + r2.value) else Err
  }

  // ---------------------------------------------------------------------
  // One step of the scan

  /** The character classes the scan tests first never contain a digit. */
  lemma DigitClass(c: char)
    requires IsDigit(c)
    ensures !IsWhiteSpace(c) && !IsPunctuator(c) && !IsComparisonStart(c)
  {
  }

  /** A white-space character produces no token: the scan goes on with the
      next character. */
  lemma WhiteSpaceSkipped(s: string, i: nat)
    requires i < |s| && IsWhiteSpace(s[i])
    ensures StepAt(s, i) == Skip && LexFrom(s, i) == LexFrom(s, i + 1)
  {
  }

  /** Each of `+ - * / ( )` is a one-character `Reserved` token with value 0,
      and the scan resumes at the next character. */
  lemma PunctuatorToken(s: string, i: nat)
    requires i < |s| && IsPunctuator(s[i])
    ensures StepAt(s, i) == Emit(Token(Reserved, 0, [s[i]]), i + 1)
  {
  }

  /** A `<` or `>` that is not followed by `=` is a one-character operator. */
  lemma SingleComparison(s: string, i: nat)
    requires i + 1 < |s| && (s[i] == '<' || s[i] == '>') && s[i + 1] != '='
    ensures StepAt(s, i) == Emit(Token(Reserved, 0, [s[i]]), i + 1)
  {
  }

  /** A run of digits at `i` becomes one `Num` token: the run is maximal, the
      value is its decimal value, and the text is that value printed again,
      so leading zeros are dropped. */
  lemma NumberToken(s: string, i: nat)
    requires i < |s| && IsDigit(s[i])
    ensures var j := DigitRunEnd(s, i);
      && i < j && AllDigits(s[i..j]) && (j == |s| || !IsDigit(s[j]))
      && StepAt(s, i) == Emit(Token(Num, ValueOf(s[i..j]), NatToString(ValueOf(s[i..j]))), j)
      && (NatToString(ValueOf(s[i..j]))[0] != '0' || ValueOf(s[i..j]) == 0)
  {
    DigitClass(s[i]);
    RunValueIsValueOf(s, i, DigitRunEnd(s, i));
  }

  /** A comparison character followed by `=` is read as one two-character
      operator, never as a one-character one. */
  lemma TwoCharOperatorFirst(s: string, i: nat)
    requires i + 1 < |s| && IsComparisonStart(s[i]) && s[i + 1] == '='
    ensures StepAt(s, i) == Emit(Token(Reserved, 0, [s[i], '=']), i + 2)
  {
  }

  lemma DigitRunEndAt(s: string, i: nat, e: nat)
    requires i <= e <= |s| && DigitsIn(s, i, e) && (e == |s| || !IsDigit(s[e]))
    ensures DigitRunEnd(s, i) == e
    decreases e - i
  {
    if i < e {
      DigitRunEndAt(s, i + 1, e);
    }
  }

  /** The value accumulated over a run does not depend on the text in front
      of it ... */
  lemma {:induction false} RunValueShift(p: string, s: string, k: nat, j: nat)
    requires k <= j <= |s| && DigitsIn(s, k, j)
    ensures DigitsIn(p + s, |p| + k, |p| + j)
    ensures RunValue(p + s, |p| + k, |p| + j) == RunValue(s, k, j)
    decreases j
  {
    assert forall m | |p| + k <= m < |p| + j :: (p + s)[m] == s[m - |p|];
    if k < j {
      RunValueShift(p, s, k, j - 1);
    }
  }

  /** ... nor on the text after it. */
  lemma {:induction false} RunValueAppend(a: string, b: string, i: nat, j: nat)
    requires i <= j <= |a| && DigitsIn(a, i, j)
    ensures DigitsIn(a + b, i, j) && RunValue(a + b, i, j) == RunValue(a, i, j)
    decreases j
  {
    assert forall m | i <= m < j :: (a + b)[m] == a[m];
    if i < j {
      RunValueAppend(a, b, i, j - 1);
    }
  }

  // ---------------------------------------------------------------------
  // Scanning a text that follows another one

  lemma {:induction false} DigitRunEndShift(p: string, s: string, k: nat)
    requires k <= |s|
    ensures DigitRunEnd(p + s, |p| + k) == |p| + DigitRunEnd(s, k)
    decreases |s| - k
  {
    if k < |s| && IsDigit(s[k]) {
      assert (p + s)[|p| + k] == s[k];
      DigitRunEndShift(p, s, k + 1);
    } else if k < |s| {
      assert (p + s)[|p| + k] == s[k];
    }
  }

  lemma StepShift(p: string, s: string, k: nat)
    requires k < |s|
    ensures StepAt(p + s, |p| + k) ==
      match StepAt(s, k)
      case Skip => Skip
      case Emit(t, j) => Emit(t, |p| + j)
      case Fail => Fail
  {
    if IsDigit(s[k]) {
      NumberShift(p, s, k);
    } else {
      assert (p + s)[|p| + k] == s[k];
      if k + 1 < |s| {
        assert (p + s)[|p| + k + 1] == s[k + 1];
      }
    }
  }

  lemma NumberShift(p: string, s: string, k: nat)
    requires k < |s| && IsDigit(s[k])
    ensures StepAt(p + s, |p| + k) == Emit(StepAt(s, k).token, |p| + StepAt(s, k).next)
  {
    assert (p + s)[|p| + k] == s[k];
    DigitClass(s[k]);
    DigitRunEndShift(p, s, k);
    RunValueShift(p, s, k, DigitRunEnd(s, k));
  }

  lemma SkipUnfold(s: string, i: nat)
    requires i < |s| && StepAt(s, i) == Skip
    ensures LexFrom(s, i) == LexFrom(s, i + 1)
  {
  }

  lemma EmitUnfold(s: string, i: nat, t: Token, j: nat)
    requires i < |s| && StepAt(s, i) == Emit(t, j)
    ensures LexFrom(s, i) == Cons(t, LexFrom(s, j))
  {
  }

  lemma FailUnfold(s: string, i: nat)
    requires i < |s| && StepAt(s, i) == Fail
    ensures LexFrom(s, i) == Err
  {
  }

  lemma ShiftSkip(p: string, s: string, k: nat)
    requires k < |s| && StepAt(s, k) == Skip
    requires LexFrom(p + s, |p| + k + 1) == LexFrom(s, k + 1)
    ensures LexFrom(p + s, |p| + k) == LexFrom(s, k)
  {
    StepShift(p, s, k);
    SkipUnfold(p + s, |p| + k);
    SkipUnfold(s, k);
  }

  lemma ShiftEmit(p: string, s: string, k: nat, t: Token, j: nat)
    requires k < |s| && StepAt(s, k) == Emit(t, j)
    requires LexFrom(p + s, |p| + j) == LexFrom(s, j)
    ensures LexFrom(p + s, |p| + k) == LexFrom(s, k)
  {
    StepShift(p, s, k);
    EmitUnfold(p + s, |p| + k, t, |p| + j);
    EmitUnfold(s, k, t, j);
  }

  lemma ShiftFail(p: string, s: string, k: nat)
    requires k < |s| && StepAt(s, k) == Fail
    ensures LexFrom(p + s, |p| + k) == LexFrom(s, k)
  {
    StepShift(p, s, k);
    FailUnfold(p + s, |p| + k);
    FailUnfold(s, k);
  }

  /** Scanning is unaffected by any text in front of the scanned part. */
  lemma {:induction false} LexFromShift(p: string, s: string, k: nat)
    requires k <= |s|
    ensures LexFrom(p + s, |p| + k) == LexFrom(s, k)
    decreases |s| - k
  {
    if k < |s| {
      match StepAt(s, k)
      case Skip =>
        LexFromShift(p, s, k + 1);
        ShiftSkip(p, s, k);
      case Emit(t, j) =>
        LexFromShift(p, s, j);
        ShiftEmit(p, s, k, t, j);
      case Fail =>
        ShiftFail(p, s, k);
    }
  }

  lemma DigitRunEndPrefix(a: string, b: string, i: nat)
    requires i < |a| && !IsDigit(a[|a| - 1])
    ensures DigitRunEnd(a + b, i) == DigitRunEnd(a, i)
  {
    var e := DigitRunEnd(a, i);
    assert e < |a|;
    assert forall m | i <= m < e :: (a + b)[m] == a[m];
    assert (a + b)[e] == a[e];
    DigitRunEndAt(a + b, i, e);
  }

  lemma StepPrefix(a: string, b: string, i: nat)
    requires i < |a| && IsWhiteSpace(a[|a| - 1])
    ensures StepAt(a + b, i) == StepAt(a, i)
  {
    assert (a + b)[i] == a[i];
    if i + 1 < |a| {
      assert (a + b)[i + 1] == a[i + 1];
    }
    if IsDigit(a[i]) {
      DigitRunEndPrefix(a, b, i);
      RunValueAppend(a, b, i, DigitRunEnd(a, i));
    }
  }

  lemma ConsConcat(t: Token, r1: Result<seq<Token>>, r2: Result<seq<Token>>)
    ensures Cons(t, Concat(r1, r2)) == Concat(Cons(t, r1), r2)
  {
    if r1.Ok? && r2.Ok? {
      assert [t] + (r1.value + r2.value) == ([t] + r1.value) + r2.value;
    }
  }

  lemma {:induction false} LexFromAppend(a: string, b: string, i: nat)
    requires i <= |a| && |a| > 0 && IsWhiteSpace(a[|a| - 1])
    ensures LexFrom(a + b, i) == Concat(LexFrom(a, i), Lex(b))
    decreases |a| - i
  {
    if i == |a| {
      LexFromShift(a, b, 0);
      if Lex(b).Ok? {
        assert [] + Lex(b).value == Lex(b).value;
      }
    } else {
      StepPrefix(a, b, i);
      match StepAt(a, i)
      case Skip =>
        LexFromAppend(a, b, i + 1);
      case Emit(t, j) =>
        LexFromAppend(a, b, j);
        ConsConcat(t, LexFrom(a, j), Lex(b));
      case Fail =>
    }
  }

  /** White space only separates tokens: a text that ends in white space
      scans, followed by any other text, to its own tokens followed by that
      text's tokens, and fails exactly when one of the two fails. */
  lemma LexAppend(a: string, b: string)
    requires |a| > 0 && IsWhiteSpace(a[|a| - 1])
    ensures Lex(a + b) == Concat(Lex(a), Lex(b))
  {
    LexFromAppend(a, b, 0);
  }

  // ---------------------------------------------------------------------
  // Printing and scanning again

  lemma LexSingleNum(t: Token)
    requires t.kind == Num && WellFormedToken(t)
    ensures Lex(t.str + " ") == Ok([t])
  {
    var s := t.str + " ";
    var n := |t.str|;
    assert s[n] == ' ';
    assert s[0..n] == t.str;
    assert DigitsIn(s, 0, n) by {
      assert forall m | 0 <= m < n :: s[m] == t.str[m];
    }
    DigitRunEndAt(s, 0, n);
    NumberToken(s, 0);
    assert ValueOf(s[0..n]) == t.value;
    assert StepAt(s, 0) == Emit(t, n);
    EmitUnfold(s, 0, t, n);
    assert StepAt(s, n) == Skip;
    SkipUnfold(s, n);
    assert LexFrom(s, n + 1) == Ok([]);
    assert [t] + [] == [t];
    assert Lex(s) == LexFrom(s, 0);
  }

  lemma LexSingleOperator(t: Token)
    requires t.kind == Reserved && WellFormedToken(t)
    ensures Lex(t.str + " ") == Ok([t])
  {
    var s := t.str + " ";
    var n := |t.str|;
    assert s[n] == ' ';
    if n == 1 {
      assert s == [t.str[0], ' '];
    } else {
      assert s == [t.str[0], t.str[1], ' '];
    }
    assert StepAt(s, 0) == Emit(t, n);
    EmitUnfold(s, 0, t, n);
    assert StepAt(s, n) == Skip;
    SkipUnfold(s, n);
    assert LexFrom(s, n + 1) == Ok([]);
    assert [t] + [] == [t];
    assert Lex(s) == LexFrom(s, 0);
  }

  lemma LexSingle(t: Token)
    requires WellFormedToken(t)
    ensures Lex(t.str + " ") == Ok([t])
  {
    if t.kind == Num {
      LexSingleNum(t);
    } else {
      LexSingleOperator(t);
    }
  }

  /** Scanning the printed form of well-formed tokens gives the same tokens. */
  lemma {:induction false} LexRender(ts: seq<Token>)
    requires forall k | 0 <= k < |ts| :: WellFormedToken(ts[k])
    ensures Lex(Render(ts)) == Ok(ts)
  {
    if ts != [] {
      LexSingle(ts[0]);
      LexRender(ts[1..]);
      assert Render(ts) == (ts[0].str + " ") + Render(ts[1..]);
      LexAppend(ts[0].str + " ", Render(ts[1..]));
      assert [ts[0]] + ts[1..] == ts;
    }
  }

  /** Every token the scan produces is well formed, so `Render` followed by
      `Lex` is the identity on everything `Lex` can produce. */
  lemma {:induction false} LexFromWellFormed(s: string, i: nat)
    requires i <= |s| && LexFrom(s, i).Ok?
    ensures forall k | 0 <= k < |LexFrom(s, i).value| :: WellFormedToken(LexFrom(s, i).value[k])
    decreases |s| - i
  {
    if i < |s| {
      match StepAt(s, i)
      case Skip => LexFromWellFormed(s, i + 1);
      case Emit(t, j) =>
        LexFromWellFormed(s, j);
        var c := s[i];
        assert WellFormedToken(t) by {
          if IsDigit(c) && !IsPunctuator(c) && !IsComparisonStart(c) {
            NumberToken(s, i);
          }
        }
      case Fail =>
    }
  }

  lemma LexRoundTrip(s: string)
    requires Lex(s).Ok?
    ensures Lex(Render(Lex(s).value)) == Lex(s)
  {
    LexFromWellFormed(s, 0);
    LexRender(Lex(s).value);
  }

  // ---------------------------------------------------------------------
  // Rejected texts

  /** Position `j` can only be reached as the start of a token: it holds no
      digit (which could continue a number) and no `=` that could complete a
      two-character operator. */
  predicate TokenBoundary(s: string, j: nat) {
    j < |s| && !IsDigit(s[j]) && (s[j] != '=' || j == 0 || !IsComparisonStart(s[j - 1]))
  }

  /** A scan that succeeds from `i` also succeeds from every token boundary
      after `i`: the scan never steps over a boundary. */
  lemma {:induction false} LexPassesBoundary(s: string, i: nat, j: nat)
    requires i <= j && TokenBoundary(s, j) && LexFrom(s, i).Ok?
    ensures LexFrom(s, j).Ok?
    decreases j - i
  {
    if i < j {
      match StepAt(s, i)
      case Skip => LexPassesBoundary(s, i + 1, j);
      case Emit(t, n) =>
        assert n <= j by {
          if IsDigit(s[i]) && !IsWhiteSpace(s[i]) && !IsPunctuator(s[i]) && !IsComparisonStart(s[i]) {
            assert j >= DigitRunEnd(s, i);
          }
        }
        LexPassesBoundary(s, n, j);
      case Fail =>
    }
  }

  /** Any character outside the lexer's classes is rejected. */
  lemma LexRejectsUnknown(s: string, j: nat)
    requires j < |s|
    requires !IsWhiteSpace(s[j]) && !IsPunctuator(s[j]) && !IsComparisonStart(s[j]) && !IsDigit(s[j])
    ensures Lex(s).Err?
  {
    if Lex(s).Ok? {
      LexPassesBoundary(s, 0, j);
    }
  }

  /** A `!` that is not followed by `=` is rejected. */
  lemma LexRejectsLoneBang(s: string, j: nat)
    requires j < |s| && s[j] == '!' && (j + 1 == |s| || s[j + 1] != '=')
    ensures Lex(s).Err?
  {
    if Lex(s).Ok? {
      LexPassesBoundary(s, 0, j);
    }
  }

  /** A `=` that neither completes nor starts a two-character operator is
      rejected: the lexer has no assignment token. */
  lemma LexRejectsLoneEquals(s: string, j: nat)
    requires j < |s| && s[j] == '='
    requires j == 0 || !IsComparisonStart(s[j - 1])
    requires j + 1 == |s| || s[j + 1] != '='
    ensures Lex(s).Err?
  {
    if Lex(s).Ok? {
      LexPassesBoundary(s, 0, j);
    }
  }

  /** A text ending in `!`, `<` or `>` is rejected: the lookahead for a
      second character runs past the end. */
  lemma LexRejectsTrailingComparison(s: string)
    requires |s| > 0 && (s[|s| - 1] == '!' || s[|s| - 1] == '<' || s[|s| - 1] == '>')
    ensures Lex(s).Err?
  {
    if Lex(s).Ok? {
      LexPassesBoundary(s, 0, |s| - 1);
    }
  }
}
