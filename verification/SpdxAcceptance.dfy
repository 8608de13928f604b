/** The parser accepts exactly the documented grammar, up to its nesting limit. */
module SpdxAcceptance {
  import opened Results
  import opened SpdxSyntax
  import opened SpdxParser
  import opened SpdxGrammar

  // ----- completeness: the parser accepts every derivation that nests at most 32 deep -----

  predicate TokenAt(ts: seq<Token>, pos: nat, t: Token) {
    pos < |ts| && ts[pos] == t
  }

  /** The tokens of the tree lie in ts from pos on. */
  predicate LiesAt(c: Tree, ts: seq<Token>, pos: nat) {
    match c
    case Leaf(t) => TokenAt(ts, pos, t)
    case Group(open, body, close) =>
      TokenAt(ts, pos, open) && LiesAt(body, ts, pos + 1) && TokenAt(ts, pos + 1 + Size(body), close)
    case WithTree(atom, op, exc) =>
      LiesAt(atom, ts, pos) && TokenAt(ts, pos + Size(atom), op) && TokenAt(ts, pos + Size(atom) + 1, exc)
    case Chain(l, op, r) =>
      LiesAt(l, ts, pos) && TokenAt(ts, pos + Size(l), op) && LiesAt(r, ts, pos + Size(l) + 1)
  }

  function Size(c: Tree): nat {
    match c
    case Leaf(_) => 1
    case Group(_, body, _) => Size(body) + 2
    case WithTree(atom, _, _) => Size(atom) + 2
    case Chain(l, _, r) => Size(l) + 1 + Size(r)
  }

  lemma Regroup(before: seq<Token>, a: seq<Token>, op: Token, b: seq<Token>, after: seq<Token>)
    ensures before + (a + [op] + b) + after == before + a + ([op] + b + after)
    ensures before + (a + [op] + b) + after == (before + a + [op]) + b + after
  {
  }

  lemma YieldUnfolds(c: Tree)
    ensures c.WithTree? ==> Yield(c) == Yield(c.atom) + [c.op] + [c.exc]
    ensures c.Chain? ==> Yield(c) == Yield(c.left) + [c.op] + Yield(c.right)
    ensures c.Group? ==> Yield(c) == [c.open] + Yield(c.body) + [c.close]
  {
  }

  lemma {:induction false} YieldLiesAt(c: Tree, before: seq<Token>, after: seq<Token>)
    ensures |Yield(c)| == Size(c) && LiesAt(c, before + Yield(c) + after, |before|)
  {
    YieldUnfolds(c);
    match c
    case Leaf(_) =>
    case Group(open, body, close) =>
      hide Yield;
      assert before + Yield(c) + after == (before + [open]) + Yield(body) + ([close] + after);
      YieldLiesAt(body, before + [open], [close] + after);
    case WithTree(atom, op, exc) =>
      Regroup(before, Yield(atom), op, [exc], after);
      hide Yield;
      YieldLiesAt(atom, before, [op] + [exc] + after);
    case Chain(l, op, r) =>
      hide Yield;
      Regroup(before, Yield(l), op, Yield(r), after);
      YieldLiesAt(l, before, [op] + Yield(r) + after);
      YieldLiesAt(r, before + Yield(l) + [op], after);
  }

  lemma {:induction false} LiesWithin(c: Tree, ts: seq<Token>, pos: nat)
    requires LiesAt(c, ts, pos)
    ensures Size(c) > 0 && pos + Size(c) <= |ts|
  {
    match c
    case Leaf(_) =>
    case Group(_, body, _) =>
    case WithTree(atom, _, _) =>
    case Chain(l, _, r) =>
      LiesWithin(r, ts, pos + Size(l) + 1);
  }

  /** What each parsing function does with a derivation of its level found at pos. */
  predicate Parses(ts: seq<Token>, pos: nat, depth: nat, level: nat, p: Parsed)
    requires pos <= |ts| && p.next <= |ts|
  {
    && (level == 0 ==> ParseAtom(ts, pos, depth) == Ok(p))
    && (level <= 1 && !Next(ts, p.next, WithOp) ==> ParseWith(ts, pos, depth) == Ok(p))
    && (level <= 2 && !Next(ts, p.next, WithOp) ==>
          ParseAnd(ts, pos, depth) == AndLoop(ts, p.node, p.next, depth))
    && (!Next(ts, p.next, WithOp) && !Next(ts, p.next, AndOp) ==>
          ParseOr(ts, pos, depth) == OrLoop(ts, p.node, p.next, depth))
  }

  /** A construct parsed at one level is parsed at every higher level when no operator follows. */
  lemma ParsesRise(ts: seq<Token>, pos: nat, depth: nat, level: nat, p: Parsed)
    requires pos <= |ts| && p.next <= |ts| && level <= 2
    requires level == 0 ==> ParseAtom(ts, pos, depth) == Ok(p)
    requires level == 1 && !Next(ts, p.next, WithOp) ==> ParseWith(ts, pos, depth) == Ok(p)
    requires level == 2 && !Next(ts, p.next, WithOp) ==>
               ParseAnd(ts, pos, depth) == AndLoop(ts, p.node, p.next, depth)
    ensures Parses(ts, pos, depth, level, p)
  {
    hide ParseAtom;
    if !Next(ts, p.next, WithOp) && !Next(ts, p.next, AndOp) {
      assert AndLoop(ts, p.node, p.next, depth) == Ok(p);
    }
  }

  lemma {:induction false} ParsesDerivation(ts: seq<Token>, pos: nat, depth: nat, c: Tree)
    requires Derivation(c) && LiesAt(c, ts, pos)
    requires depth + Nesting(c) <= MAX_NESTING_DEPTH
    ensures pos + Size(c) <= |ts|
    ensures Parses(ts, pos, depth, Level(c), Parsed(Ast(c), pos + Size(c)))
    decreases c
  {
    hide ParseAtom, ParseWith, ParseAnd, ParseOr, AndLoop, OrLoop, Parses;
    LiesWithin(c, ts, pos);
    var p := Parsed(Ast(c), pos + Size(c));
    match c
    case Leaf(t) =>
      LeafParses(ts, pos, depth);
    case Group(open, body, close) =>
      ParsesDerivation(ts, pos + 1, depth + 1, body);
      GroupParses(ts, pos, depth, Level(body), Ast(body), p.next - 1);
    case WithTree(atom, op, exc) =>
      ParsesDerivation(ts, pos, depth, atom);
      WithParses(ts, pos, depth, Ast(atom), p.next - 2);
    case Chain(l, op, r) =>
      ParsesDerivation(ts, pos, depth, l);
      ParsesDerivation(ts, pos + Size(l) + 1, depth, r);
      ChainParses(ts, pos, depth, Level(l), Parsed(Ast(l), pos + Size(l)), Level(r), Parsed(Ast(r), p.next));
  }

  lemma LeafParses(ts: seq<Token>, pos: nat, depth: nat)
    requires pos < |ts| && IsLicense(ts[pos].kind)
    ensures Parses(ts, pos, depth, 0, Parsed(Simple(ts[pos].value, ts[pos].kind.OrLater?), pos + 1))
  {
    ParsesRise(ts, pos, depth, 0, Parsed(Simple(ts[pos].value, ts[pos].kind.OrLater?), pos + 1));
  }

  lemma GroupParses(ts: seq<Token>, pos: nat, depth: nat, level: nat, body: Node, close: nat)
    requires Next(ts, pos, LParen) && pos < close && Next(ts, close, RParen)
    requires depth + 1 <= MAX_NESTING_DEPTH
    requires Parses(ts, pos + 1, depth + 1, level, Parsed(body, close))
    ensures Parses(ts, pos, depth, 0, Parsed(body, close + 1))
  {
    hide ParseOr, ParseAnd, ParseWith, AndLoop;
    ParsesRise(ts, pos, depth, 0, Parsed(body, close + 1));
  }

  lemma WithParses(ts: seq<Token>, pos: nat, depth: nat, atom: Node, op: nat)
    requires pos <= op && Next(ts, op, WithOp) && op + 1 < |ts|
    requires ts[op + 1].kind.LicenseId? || ts[op + 1].kind.LicenseRef?
    requires Parses(ts, pos, depth, 0, Parsed(atom, op))
    ensures Parses(ts, pos, depth, 1, Parsed(With(atom, ts[op + 1].value), op + 2))
  {
    hide ParseAtom, ParseOr, ParseAnd, OrLoop, AndLoop;
    ParsesRise(ts, pos, depth, 1, Parsed(With(atom, ts[op + 1].value), op + 2));
  }

  lemma ChainParses(ts: seq<Token>, pos: nat, depth: nat, ll: nat, l: Parsed, lr: nat, r: Parsed)
    requires pos <= l.next && l.next + 1 < |ts| && r.next <= |ts|
    requires Next(ts, l.next, AndOp) || Next(ts, l.next, OrOp)
    requires var level := if Next(ts, l.next, AndOp) then 2 else 3; ll <= level && lr < level
    requires Parses(ts, pos, depth, ll, l) && Parses(ts, l.next + 1, depth, lr, r)
    ensures Next(ts, l.next, AndOp) ==> Parses(ts, pos, depth, 2, Parsed(And(l.node, r.node), r.next))
    ensures Next(ts, l.next, OrOp) ==> Parses(ts, pos, depth, 3, Parsed(Or(l.node, r.node), r.next))
  {
    hide ParseAtom, ParseWith, ParseAnd, ParseOr;
    if Next(ts, l.next, AndOp) {
      ParsesRise(ts, pos, depth, 2, Parsed(And(l.node, r.node), r.next));
    }
  }

  // ----- soundness: whatever the parser accepts has a derivation -----

  /** c derives what was read from pos to p.next, within the depth limit. */
  predicate Derives(ts: seq<Token>, pos: nat, depth: nat, p: Parsed, c: Tree) {
    && Derivation(c) && Ast(c) == p.node
    && pos <= p.next <= |ts| && Yield(c) == ts[pos..p.next]
    && depth + Nesting(c) <= MAX_NESTING_DEPTH
  }

  lemma {:induction false} AtomHasDerivation(ts: seq<Token>, pos: nat, depth: nat) returns (c: Tree)
    requires pos <= |ts| && depth <= MAX_NESTING_DEPTH && ParseAtom(ts, pos, depth).Ok?
    ensures Level(c) == 0 && Derives(ts, pos, depth, ParseAtom(ts, pos, depth).value, c)
    decreases |ts| - pos, 0
  {
    if ts[pos].kind.LParen? {
      var body := OrHasDerivation(ts, pos + 1, depth + 1);
      var end := ParseOr(ts, pos + 1, depth + 1).value.next;
      assert ts[pos..end + 1] == [ts[pos]] + ts[pos + 1..end] + [ts[end]];
      c := Group(ts[pos], body, ts[end]);
    } else {
      c := Leaf(ts[pos]);
    }
  }

  lemma {:induction false} WithHasDerivation(ts: seq<Token>, pos: nat, depth: nat) returns (c: Tree)
    requires pos <= |ts| && depth <= MAX_NESTING_DEPTH && ParseWith(ts, pos, depth).Ok?
    ensures Level(c) <= 1 && Derives(ts, pos, depth, ParseWith(ts, pos, depth).value, c)
    decreases |ts| - pos, 1
  {
    c := AtomHasDerivation(ts, pos, depth);
    var end := ParseAtom(ts, pos, depth).value.next;
    if Next(ts, end, WithOp) {
      assert ts[pos..end + 2] == ts[pos..end] + [ts[end]] + [ts[end + 1]];
      c := WithTree(c, ts[end], ts[end + 1]);
    }
  }

  lemma {:induction false} AndHasDerivation(ts: seq<Token>, pos: nat, depth: nat) returns (c: Tree)
    requires pos <= |ts| && depth <= MAX_NESTING_DEPTH && ParseAnd(ts, pos, depth).Ok?
    ensures Level(c) <= 2 && Derives(ts, pos, depth, ParseAnd(ts, pos, depth).value, c)
    decreases |ts| - pos, 2
  {
    var left := WithHasDerivation(ts, pos, depth);
    c := AndLoopHasDerivation(ts, pos, depth, left, ParseWith(ts, pos, depth).value);
  }

  lemma {:induction false} AndLoopHasDerivation(ts: seq<Token>, pos: nat, depth: nat, left: Tree, p: Parsed)
    returns (c: Tree)
    requires Level(left) <= 2 && Derives(ts, pos, depth, p, left) && pos < p.next
    requires AndLoop(ts, p.node, p.next, depth).Ok?
    ensures Level(c) <= 2 && Derives(ts, pos, depth, AndLoop(ts, p.node, p.next, depth).value, c)
    decreases |ts| - p.next, 4
  {
    c := left;
    if Next(ts, p.next, AndOp) {
      var right := WithHasDerivation(ts, p.next + 1, depth);
      var q := ParseWith(ts, p.next + 1, depth).value;
      assert ts[pos..q.next] == ts[pos..p.next] + [ts[p.next]] + ts[p.next + 1..q.next];
      c := AndLoopHasDerivation(ts, pos, depth, Chain(left, ts[p.next], right),
                                Parsed(And(p.node, q.node), q.next));
    }
  }

  lemma {:induction false} OrHasDerivation(ts: seq<Token>, pos: nat, depth: nat) returns (c: Tree)
    requires pos <= |ts| && depth <= MAX_NESTING_DEPTH && ParseOr(ts, pos, depth).Ok?
    ensures Derives(ts, pos, depth, ParseOr(ts, pos, depth).value, c)
    decreases |ts| - pos, 3
  {
    var left := AndHasDerivation(ts, pos, depth);
    c := OrLoopHasDerivation(ts, pos, depth, left, ParseAnd(ts, pos, depth).value);
  }

  lemma {:induction false} OrLoopHasDerivation(ts: seq<Token>, pos: nat, depth: nat, left: Tree, p: Parsed)
    returns (c: Tree)
    requires Derives(ts, pos, depth, p, left) && pos < p.next
    requires OrLoop(ts, p.node, p.next, depth).Ok?
    ensures Derives(ts, pos, depth, OrLoop(ts, p.node, p.next, depth).value, c)
    decreases |ts| - p.next, 4
  {
    c := left;
    if Next(ts, p.next, OrOp) {
      var right := AndHasDerivation(ts, p.next + 1, depth);
      var q := ParseAnd(ts, p.next + 1, depth).value;
      assert ts[pos..q.next] == ts[pos..p.next] + [ts[p.next]] + ts[p.next + 1..q.next];
      c := OrLoopHasDerivation(ts, pos, depth, Chain(left, ts[p.next], right),
                               Parsed(Or(p.node, q.node), q.next));
    }
  }

  // ----- the language accepted -----

  lemma ParsesWhole(ts: seq<Token>, c: Tree)
    requires Derivation(c) && LiesAt(c, ts, 0) && Size(c) == |ts| && Nesting(c) <= MAX_NESTING_DEPTH
    ensures Parse(ts) == Ok(Ast(c))
  {
    hide ParseOr, LiesAt, Size;
    ParsesDerivation(ts, 0, 0, c);
    assert OrLoop(ts, Ast(c), |ts|, 0) == Ok(Parsed(Ast(c), |ts|));
  }

  lemma ParseOfYield(c: Tree)
    requires Derivation(c) && MaxOpen(Yield(c)) <= MAX_NESTING_DEPTH
    ensures Parse(Yield(c)) == Ok(Ast(c))
  {
    hide Parse, LiesAt, Derivation, ParensInGroups;
    var ts := Yield(c);
    DerivationParens(c);
    NestingIsMaxOpen(c);
    YieldLiesAt(c, [], []);
    assert [] + ts + [] == ts;
    ParsesWhole(ts, c);
  }

  lemma ParsedDerivation(ts: seq<Token>) returns (c: Tree)
    requires Parse(ts).Ok?
    ensures Derivation(c) && Yield(c) == ts && Ast(c) == Parse(ts).value
    ensures MaxOpen(ts) <= MAX_NESTING_DEPTH
  {
    c := OrHasDerivation(ts, 0, 0);
    assert ts[0..|ts|] == ts;
    DerivationParens(c);
    NestingIsMaxOpen(c);
  }

  /** The parser accepts exactly the grammar, up to 32 parentheses open at once, with its tree. */
  lemma AcceptsExactlyTheGrammar(ts: seq<Token>, n: Node)
    ensures Parse(ts) == Ok(n) <==>
            MaxOpen(ts) <= MAX_NESTING_DEPTH && exists c :: Derivation(c) && Yield(c) == ts && Ast(c) == n
  {
    if Parse(ts) == Ok(n) {
      var c := ParsedDerivation(ts);
    }
    if c :| MaxOpen(ts) <= MAX_NESTING_DEPTH && Derivation(c) && Yield(c) == ts && Ast(c) == n {
      ParseOfYield(c);
    }
  }
}
