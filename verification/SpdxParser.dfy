/** The recursive-descent parser of SPDX expressions: WITH binds tighter than AND, AND than OR. */
module SpdxParser {
  import opened Results
  import opened SpdxSyntax

  const MAX_NESTING_DEPTH := 32

  datatype Problem =
    | EmptyExpression
    | TrailingToken
    | MissingOperandAfterOr
    | MissingOperandAfterAnd
    | MissingException
    | NotAnException
    | UnexpectedEnd
    | NestingTooDeep
    | MissingClosing
    | UnexpectedClosing
    | MissingOperandBefore

  datatype ParseError = ParseError(problem: Problem, position: nat)

  datatype Parsed = Parsed(node: Node, next: nat)

  type Outcome = Result<Parsed, ParseError>

  predicate Next(ts: seq<Token>, pos: nat, kind: TokenType) {
    pos < |ts| && ts[pos].kind == kind
  }

  predicate IsLicense(kind: TokenType) {
    kind.LicenseId? || kind.OrLater? || kind.LicenseRef? || kind.DocumentRef?
  }

  // ----- what each parsing method computes, from a position and a nesting depth -----

  function ParseOr(ts: seq<Token>, pos: nat, depth: nat): (r: Outcome)
    requires pos <= |ts|
    ensures r.Ok? ==> pos < r.value.next <= |ts|
    decreases |ts| - pos, 3
  {
    var left :- ParseAnd(ts, pos, depth);
    OrLoop(ts, left.node, left.next, depth)
  }

  function OrLoop(ts: seq<Token>, left: Node, pos: nat, depth: nat): (r: Outcome)
    requires pos <= |ts|
    ensures r.Ok? ==> pos <= r.value.next <= |ts|
    decreases |ts| - pos, 4
  {
    if !Next(ts, pos, OrOp) then Ok(Parsed(left, pos))
    else if pos + 1 >= |ts| then Err(ParseError(MissingOperandAfterOr, pos))
    else
      var right :- ParseAnd(ts, pos + 1, depth);
      OrLoop(ts, Or(left, right.node), right.next, depth)
  }

  function ParseAnd(ts: seq<Token>, pos: nat, depth: nat): (r: Outcome)
    requires pos <= |ts|
    ensures r.Ok? ==> pos < r.value.next <= |ts|
    decreases |ts| - pos, 2
  {
    var left :- ParseWith(ts, pos, depth);
    AndLoop(ts, left.node, left.next, depth)
  }

  function AndLoop(ts: seq<Token>, left: Node, pos: nat, depth: nat): (r: Outcome)
    requires pos <= |ts|
    ensures r.Ok? ==> pos <= r.value.next <= |ts|
    decreases |ts| - pos, 4
  {
    if !Next(ts, pos, AndOp) then Ok(Parsed(left, pos))
    else if pos + 1 >= |ts| then Err(ParseError(MissingOperandAfterAnd, pos))
    else
      var right :- ParseWith(ts, pos + 1, depth);
      AndLoop(ts, And(left, right.node), right.next, depth)
  }

  function ParseWith(ts: seq<Token>, pos: nat, depth: nat): (r: Outcome)
    requires pos <= |ts|
    ensures r.Ok? ==> pos < r.value.next <= |ts|
    decreases |ts| - pos, 1
  {
    var atom :- ParseAtom(ts, pos, depth);
    if !Next(ts, atom.next, WithOp) then Ok(atom)
    else if atom.next + 1 >= |ts| then Err(ParseError(MissingException, atom.next))
    else
      var exc := ts[atom.next + 1];
      if exc.kind.LicenseId? || exc.kind.LicenseRef?
      then Ok(Parsed(With(atom.node, exc.value), atom.next + 2))
      else Err(ParseError(NotAnException, atom.next + 1))
  }

  function ParseAtom(ts: seq<Token>, pos: nat, depth: nat): (r: Outcome)
    requires pos <= |ts|
    ensures r.Ok? ==> pos < r.value.next <= |ts|
    decreases |ts| - pos, 0
  {
    if pos == |ts| then Err(ParseError(UnexpectedEnd, pos))
    else if ts[pos].kind.LParen? then
      if depth + 1 > MAX_NESTING_DEPTH then Err(ParseError(NestingTooDeep, pos))
      else
        var body :- ParseOr(ts, pos + 1, depth + 1);
        if Next(ts, body.next, RParen) then Ok(Parsed(body.node, body.next + 1))
        else Err(ParseError(MissingClosing, if body.next == |ts| then body.next - 1 else body.next))
    else if IsLicense(ts[pos].kind) then
      Ok(Parsed(Simple(ts[pos].value, ts[pos].kind.OrLater?), pos + 1))
    else if ts[pos].kind.RParen? then Err(ParseError(UnexpectedClosing, pos))
    else Err(ParseError(MissingOperandBefore, pos))
  }

  function Parse(ts: seq<Token>): Result<Node, ParseError> {
    if ts == [] then Err(ParseError(EmptyExpression, 0))
    else
      var p :- ParseOr(ts, 0, 0);
      if p.next < |ts| then Err(ParseError(TrailingToken, p.next)) else Ok(p.node)
  }

  // ----- the parser object -----

  class SPDXExpressionParser {
    var tokens: seq<Token>
    var pos: nat
    var depth: nat

    constructor ()
      ensures tokens == [] && pos == 0 && depth == 0
    {
      tokens, pos, depth := [], 0, 0;
    }

    /** The parser consumed what o consumed and returns its node, at the same depth as before. */
    twostate predicate Follows(o: Outcome, new r: Result<Node, ParseError>)
      reads this
    {
      match o
      case Ok(p) => r == Ok(p.node) && pos == p.next && depth == old(depth)
      case Err(error) => r == Err(error)
    }

    predicate Peek(kind: TokenType)
      reads this
    {
      Next(tokens, pos, kind)
    }

    method Advance() returns (t: Token)
      requires pos < |tokens|
      modifies `pos
      ensures t == tokens[old(pos)] && pos == old(pos) + 1
    {
      t := tokens[pos];
      pos := pos + 1;
    }

    method ParseOrExpr() returns (r: Result<Node, ParseError>)
      requires pos <= |tokens|
      modifies `pos, `depth
      ensures Follows(ParseOr(tokens, old(pos), old(depth)), r)
      decreases |tokens| - pos, 3
    {
      var left :- ParseAndExpr();
      ghost var goal := ParseOr(tokens, old(pos), old(depth));
      while Peek(OrOp)
        invariant old(pos) < pos <= |tokens| && depth == old(depth)
        invariant OrLoop(tokens, left, pos, depth) == goal
        decreases |tokens| - pos
      {
        var _ := Advance();
        if pos >= |tokens| {
          return Err(ParseError(MissingOperandAfterOr, pos - 1));
        }
        var right :- ParseAndExpr();
        left := Or(left, right);
      }
      return Ok(left);
    }

    method ParseAndExpr() returns (r: Result<Node, ParseError>)
      requires pos <= |tokens|
      modifies `pos, `depth
      ensures Follows(ParseAnd(tokens, old(pos), old(depth)), r)
      decreases |tokens| - pos, 2
    {
      var left :- ParseWithExpr();
      ghost var goal := ParseAnd(tokens, old(pos), old(depth));
      while Peek(AndOp)
        invariant old(pos) < pos <= |tokens| && depth == old(depth)
        invariant AndLoop(tokens, left, pos, depth) == goal
        decreases |tokens| - pos
      {
        var _ := Advance();
        if pos >= |tokens| {
          return Err(ParseError(MissingOperandAfterAnd, pos - 1));
        }
        var right :- ParseWithExpr();
        left := And(left, right);
      }
      return Ok(left);
    }

    method ParseWithExpr() returns (r: Result<Node, ParseError>)
      requires pos <= |tokens|
      modifies `pos, `depth
      ensures Follows(ParseWith(tokens, old(pos), old(depth)), r)
      decreases |tokens| - pos, 1
    {
      var node :- ParseAtomExpr();
      if Peek(WithOp) {
        var _ := Advance();
        if pos >= |tokens| {
          return Err(ParseError(MissingException, pos - 1));
        }
        if !Peek(LicenseId) && !Peek(LicenseRef) {
          return Err(ParseError(NotAnException, pos));
        }
        var exc := Advance();
        node := With(node, exc.value);
      }
      return Ok(node);
    }

    method ParseAtomExpr() returns (r: Result<Node, ParseError>)
      requires pos <= |tokens|
      modifies `pos, `depth
      ensures Follows(ParseAtom(tokens, old(pos), old(depth)), r)
      decreases |tokens| - pos, 0
    {
      if pos == |tokens| {
        return Err(ParseError(UnexpectedEnd, pos));
      }
      if Peek(LParen) {
        var _ := Advance();
        depth := depth + 1;
        if depth > MAX_NESTING_DEPTH {
          return Err(ParseError(NestingTooDeep, pos - 1));
        }
        var node :- ParseOrExpr();
        depth := depth - 1;
        if !Peek(RParen) {
          return Err(ParseError(MissingClosing, if pos == |tokens| then pos - 1 else pos));
        }
        var _ := Advance();
        return Ok(node);
      }
      if IsLicense(tokens[pos].kind) {
        var t := Advance();
        return Ok(Simple(t.value, t.kind.OrLater?));
      }
      if Peek(RParen) {
        return Err(ParseError(UnexpectedClosing, pos));
      }
      return Err(ParseError(MissingOperandBefore, pos));
    }

    method ParseTokens(ts: seq<Token>) returns (r: Result<Node, ParseError>)
      modifies this
      ensures r == Parse(ts)
    {
      if ts == [] {
        return Err(ParseError(EmptyExpression, 0));
      }
      tokens, pos, depth := ts, 0, 0;
      var node :- ParseOrExpr();
      if pos < |tokens| {
        return Err(ParseError(TrailingToken, pos));
      }
      return Ok(node);
    }
  }
}
