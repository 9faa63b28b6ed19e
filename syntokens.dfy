/** The token stream the parser reads (Honyac/NodeMap.cs). The parser uses
    token kinds and cursor members that the lexer of Honyac/TokenList.cs does
    not have: identifiers, type names, keywords, `Expect(TokenKind)`,
    `ExpectIdent`, `ConsumeIdent` and the unconditional `Consume()`. They are
    given here the same cursor contract as the lexer's own `Consume(char)` and
    `Expect(char)`: on a match the cursor advances by exactly one, otherwise it
    stays where it is and, for the `Expect` family, the read is an error. The
    cursor is the position `pos` passed along by every parsing function. */
module SynTokens {
  import opened Wrappers
  import Types

  datatype SynKind = Reserved | Num | Ident | Type | If | Else | While | For | Return | Sizeof

  /** A token: its kind, the value of a number, its text, and for a type
      name the type it denotes. */
  datatype SynToken = SynToken(kind: SynKind, value: int, str: string, typeKind: Types.TypeKind)

  /** The result of a read: the value read and the cursor after it. */
  datatype Read<T> = Read(value: T, next: nat)

  /** The token at `pos` is the `Reserved` token spelled `op`; this is the
      test of `Consume(char)`, `Consume(string)` and `Expect(char)`. */
  predicate AtOp(ts: seq<SynToken>, pos: nat, op: string) {
    pos < |ts| && ts[pos].kind == Reserved && ts[pos].str == op
  }

  /** The token at `pos` has kind `k` (`Consume(TokenKind)`). */
  predicate AtKind(ts: seq<SynToken>, pos: nat, k: SynKind) {
    pos < |ts| && ts[pos].kind == k
  }

  /** `Expect(char)`: steps over the `Reserved` token `op`, or fails. */
  function Expect(ts: seq<SynToken>, pos: nat, op: string): (r: Result<nat>)
    ensures r.Ok? <==> AtOp(ts, pos, op)
    ensures r.Ok? ==> r.value == pos + 1
  {
    if AtOp(ts, pos, op) then Ok(pos + 1) else Err
  }

  /** `Expect(TokenKind)`: steps over a token of kind `k`, or fails. */
  function ExpectKind(ts: seq<SynToken>, pos: nat, k: SynKind): (r: Result<nat>)
    ensures r.Ok? <==> AtKind(ts, pos, k)
    ensures r.Ok? ==> r.value == pos + 1
  {
    if AtKind(ts, pos, k) then Ok(pos + 1) else Err
  }

  /** `ExpectIdent`: the name of the identifier under the cursor, or an
      error. `ConsumeIdent` is the same read with "no identifier" as a
      regular outcome; the parser tests `AtKind(ts, pos, Ident)` for it. */
  function ExpectIdent(ts: seq<SynToken>, pos: nat): (r: Result<Read<string>>)
    ensures r.Ok? <==> AtKind(ts, pos, Ident)
    ensures r.Ok? ==> r.value == Read(ts[pos].str, pos + 1)
  {
    if AtKind(ts, pos, Ident) then Ok(Read(ts[pos].str, pos + 1)) else Err
  }

  /** `ExpectNumber`: the value of the number under the cursor, or an error. */
  function ExpectNumber(ts: seq<SynToken>, pos: nat): (r: Result<Read<int>>)
    ensures r.Ok? <==> AtKind(ts, pos, Num)
    ensures r.Ok? ==> r.value == Read(ts[pos].value, pos + 1)
  {
    if AtKind(ts, pos, Num) then Ok(Read(ts[pos].value, pos + 1)) else Err
  }

  /** `Consume()`: the token under the cursor, whatever it is. Reading past
      the last token is an error. */
  function ConsumeAny(ts: seq<SynToken>, pos: nat): (r: Result<Read<SynToken>>)
    ensures r.Ok? <==> pos < |ts|
    ensures r.Ok? ==> r.value == Read(ts[pos], pos + 1)
  {
    if pos < |ts| then Ok(Read(ts[pos], pos + 1)) else Err
  }

  /** `while (Consume('*'));`: the cursor after a run of `*` tokens. */
  function SkipStars(ts: seq<SynToken>, pos: nat): (r: nat)
    requires pos <= |ts|
    ensures pos <= r <= |ts| && !AtOp(ts, r, "*")
    ensures forall k | pos <= k < r :: AtOp(ts, k, "*")
    decreases |ts| - pos
  {
    if AtOp(ts, pos, "*") then SkipStars(ts, pos + 1) else pos
  }

  /** The parser's view of `TokenList`: the tokens, which parsing never
      changes, and the cursor `CurrentIndex`. Every member either steps over
      exactly the token it tests for or leaves the cursor where it is. */
  class TokenCursor {
    const tokens: seq<SynToken>
    var index: nat

    ghost predicate Valid()
      reads this
    {
      index <= |tokens|
    }

    constructor (ts: seq<SynToken>)
      ensures tokens == ts && index == 0 && Valid()
    {
      tokens := ts;
      index := 0;
    }

    /** `Consume(char)` and `Consume(string)`. */
    method Consume(op: string) returns (b: bool)
      requires Valid()
      modifies this
      ensures Valid()
      ensures b == AtOp(tokens, old(index), op)
      ensures index == if b then old(index) + 1 else old(index)
    {
      b := AtOp(tokens, index, op);
      if b {
        index := index + 1;
      }
    }

    /** `Consume(TokenKind)`. */
    method ConsumeKind(k: SynKind) returns (b: bool)
      requires Valid()
      modifies this
      ensures Valid()
      ensures b == AtKind(tokens, old(index), k)
      ensures index == if b then old(index) + 1 else old(index)
    {
      b := AtKind(tokens, index, k);
      if b {
        index := index + 1;
      }
    }

    /** `Expect(char)`: `false` stands for the error it raises. */
    method Expect(op: string) returns (ok: bool)
      requires Valid()
      modifies this
      ensures Valid()
      ensures ok == AtOp(tokens, old(index), op)
      ensures index == if ok then old(index) + 1 else old(index)
    {
      ok := Consume(op);
    }

    /** `Expect(TokenKind)`. */
    method ExpectKind(k: SynKind) returns (ok: bool)
      requires Valid()
      modifies this
      ensures Valid()
      ensures ok == AtKind(tokens, old(index), k)
      ensures index == if ok then old(index) + 1 else old(index)
    {
      ok := ConsumeKind(k);
    }

    /** `ConsumeIdent`: the identifier under the cursor, if there is one. */
    method ConsumeIdent() returns (t: Option<SynToken>)
      requires Valid()
      modifies this
      ensures Valid()
      ensures t.Some? == AtKind(tokens, old(index), Ident)
      ensures t.Some? ==> t.value == tokens[old(index)]
      ensures index == if t.Some? then old(index) + 1 else old(index)
    {
      if AtKind(tokens, index, Ident) {
        t := Some(tokens[index]);
        index := index + 1;
      } else {
        t := None;
      }
    }

    /** `ExpectIdent`. */
    method ExpectIdent() returns (r: Result<SynToken>)
      requires Valid()
      modifies this
      ensures Valid()
      ensures r.Ok? == AtKind(tokens, old(index), Ident)
      ensures r.Ok? ==> r.value == tokens[old(index)]
      ensures index == if r.Ok? then old(index) + 1 else old(index)
    {
      var t := ConsumeIdent();
      if t.Some? {
        r := Ok(t.value);
      } else {
        r := Err;
      }
    }

    /** `ExpectNumber`. */
    method ExpectNumber() returns (r: Result<int>)
      requires Valid()
      modifies this
      ensures Valid()
      ensures r.Ok? == AtKind(tokens, old(index), Num)
      ensures r.Ok? ==> r.value == tokens[old(index)].value
      ensures index == if r.Ok? then old(index) + 1 else old(index)
    {
      if AtKind(tokens, index, Num) {
        r := Ok(tokens[index].value);
        index := index + 1;
      } else {
        r := Err;
      }
    }

    /** `Consume()`: the token under the cursor, whatever its kind. */
    method ConsumeAny() returns (r: Result<SynToken>)
      requires Valid()
      modifies this
      ensures Valid()
      ensures r.Ok? == (old(index) < |tokens|)
      ensures r.Ok? ==> r.value == tokens[old(index)]
      ensures index == if r.Ok? then old(index) + 1 else old(index)
    {
      if index < |tokens| {
        r := Ok(tokens[index]);
        index := index + 1;
      } else {
        r := Err;
      }
    }

    method IsEof() returns (b: bool)
      ensures b == (index == |tokens|)
    {
      b := index == |tokens|;
    }
  }
}
