/**
 * The language of expressions told without recursion: one pass from left to right that counts open
 * parentheses. It rejects where the parser does and with the same error.
 */
module SpdxAutomaton {
  import opened Results
  import opened SpdxSyntax
  import opened SpdxParser

  /** What may come next: an operand, an exception, or what may follow an operand without or with an exception. */
  datatype Need = Operand | Exception | Operator | NoException

  /** The error at a token, or where to go on and with how many parentheses open. */
  datatype Move = Fault(problem: Problem) | On(need: Need, depth: nat)

  function MoveOn(need: Need, depth: nat, kind: TokenType): Move {
    match need
    case Operand =>
      if kind.LParen? then if depth >= 32 then Fault(NestingTooDeep) else On(Operand, depth + 1)
      else if kind.RParen? then Fault(UnexpectedClosing)
      else if kind.AndOp? || kind.OrOp? || kind.WithOp? then Fault(MissingOperandBefore)
      else On(Operator, depth)
    case Exception =>
      if kind.LicenseId? || kind.LicenseRef? then On(NoException, depth) else Fault(NotAnException)
    case _ =>
      if kind.AndOp? || kind.OrOp? then On(Operand, depth)
      else if kind.WithOp? && need.Operator? then On(Exception, depth)
      else if kind.RParen? && depth > 0 then On(Operator, depth - 1)
      else Fault(if depth > 0 then MissingClosing else TrailingToken)
  }

  /** The error at the end of the tokens, if they may not end. */
  function AtEnd(ts: seq<Token>, need: Need, depth: nat): Option<ParseError> {
    var n := |ts|;
    match need
    case Operand =>
      if n == 0 then Some(ParseError(EmptyExpression, 0))
      else if ts[n - 1].kind.OrOp? then Some(ParseError(MissingOperandAfterOr, n - 1))
      else if ts[n - 1].kind.AndOp? then Some(ParseError(MissingOperandAfterAnd, n - 1))
      else Some(ParseError(UnexpectedEnd, n))
    case Exception => Some(ParseError(MissingException, if n == 0 then 0 else n - 1))
    case _ => if depth > 0 then Some(ParseError(MissingClosing, if n == 0 then 0 else n - 1)) else None
  }

  /** The first error from pos on. */
  function Scan(ts: seq<Token>, pos: nat, need: Need, depth: nat): Option<ParseError>
    requires pos <= |ts|
    decreases |ts| - pos
  {
    if pos == |ts| then AtEnd(ts, need, depth)
    else
      match MoveOn(need, depth, ts[pos].kind)
      case Fault(problem) => Some(ParseError(problem, pos))
      case On(n, d) => Scan(ts, pos + 1, n, d)
  }

  // ----- the parser goes the same way -----

  /** Parsing came to p, or failed, as scanning does. */
  predicate Tracks(ts: seq<Token>, o: Outcome, before: Option<ParseError>, depth: nat, after: Need) {
    match o
    case Err(error) => before == Some(error)
    case Ok(p) => p.next <= |ts| && before == Scan(ts, p.next, after, depth)
  }

  lemma WithoutException(ts: seq<Token>, pos: nat, depth: nat)
    requires pos <= |ts| && !Next(ts, pos, WithOp)
    ensures Scan(ts, pos, Operator, depth) == Scan(ts, pos, NoException, depth)
  {
  }

  /** Only where an expression has been begun can its first operand be missing. */
  predicate Begun(ts: seq<Token>, pos: nat) {
    pos < |ts| || (pos == |ts| > 0 && ts[pos - 1].kind.LParen?)
  }

  lemma {:induction false} AtomTracks(ts: seq<Token>, pos: nat, depth: nat)
    requires Begun(ts, pos)
    ensures Tracks(ts, ParseAtom(ts, pos, depth), Scan(ts, pos, Operand, depth), depth, Operator)
    decreases |ts| - pos, 0
  {
    if pos < |ts| && ts[pos].kind.LParen? && depth < 32 {
      OrTracks(ts, pos + 1, depth + 1);
      hide ParseOr;
    }
  }

  lemma {:induction false} WithTracks(ts: seq<Token>, pos: nat, depth: nat)
    requires Begun(ts, pos)
    ensures Tracks(ts, ParseWith(ts, pos, depth), Scan(ts, pos, Operand, depth), depth, NoException)
    decreases |ts| - pos, 1
  {
    AtomTracks(ts, pos, depth);
    hide ParseAtom;
    if ParseAtom(ts, pos, depth).Ok? {
      var next := ParseAtom(ts, pos, depth).value.next;
      if !Next(ts, next, WithOp) {
        WithoutException(ts, next, depth);
      } else {
        ScanStep(ts, next, Operator, depth);
        if next + 1 < |ts| && MoveOn(Exception, depth, ts[next + 1].kind).On? {
          ScanStep(ts, next + 1, Exception, depth);
        }
      }
    }
  }

  lemma {:induction false} AndTracks(ts: seq<Token>, pos: nat, depth: nat)
    requires Begun(ts, pos)
    ensures var o := ParseAnd(ts, pos, depth);
            && Tracks(ts, o, Scan(ts, pos, Operand, depth), depth, NoException)
            && (o.Ok? ==> !Next(ts, o.value.next, AndOp))
    decreases |ts| - pos, 2
  {
    WithTracks(ts, pos, depth);
    hide ParseWith, AndLoop, Scan;
    if ParseWith(ts, pos, depth).Ok? {
      var left := ParseWith(ts, pos, depth).value;
      AndLoopTracks(ts, left.node, left.next, depth);
    }
  }

  lemma {:induction false} AndLoopTracks(ts: seq<Token>, left: Node, pos: nat, depth: nat)
    requires pos <= |ts|
    ensures var o := AndLoop(ts, left, pos, depth);
            && Tracks(ts, o, Scan(ts, pos, NoException, depth), depth, NoException)
            && (o.Ok? ==> !Next(ts, o.value.next, AndOp))
    decreases |ts| - pos, 4
  {
    hide ParseWith;
    if pos + 1 < |ts| && Next(ts, pos, AndOp) {
      WithTracks(ts, pos + 1, depth);
      if ParseWith(ts, pos + 1, depth).Ok? {
        var right := ParseWith(ts, pos + 1, depth).value;
        AndLoopTracks(ts, And(left, right.node), right.next, depth);
      }
    }
  }

  lemma {:induction false} OrTracks(ts: seq<Token>, pos: nat, depth: nat)
    requires Begun(ts, pos)
    ensures var o := ParseOr(ts, pos, depth);
            && Tracks(ts, o, Scan(ts, pos, Operand, depth), depth, NoException)
            && (o.Ok? ==> !Next(ts, o.value.next, AndOp) && !Next(ts, o.value.next, OrOp))
    decreases |ts| - pos, 3
  {
    AndTracks(ts, pos, depth);
    hide ParseAnd, OrLoop, Scan;
    if ParseAnd(ts, pos, depth).Ok? {
      var left := ParseAnd(ts, pos, depth).value;
      OrLoopTracks(ts, left.node, left.next, depth);
    }
  }

  lemma {:induction false} OrLoopTracks(ts: seq<Token>, left: Node, pos: nat, depth: nat)
    requires pos <= |ts| && !Next(ts, pos, AndOp)
    ensures var o := OrLoop(ts, left, pos, depth);
            && Tracks(ts, o, Scan(ts, pos, NoException, depth), depth, NoException)
            && (o.Ok? ==> !Next(ts, o.value.next, AndOp) && !Next(ts, o.value.next, OrOp))
    decreases |ts| - pos, 4
  {
    hide ParseAnd;
    if pos + 1 < |ts| && Next(ts, pos, OrOp) {
      AndTracks(ts, pos + 1, depth);
      if ParseAnd(ts, pos + 1, depth).Ok? {
        var right := ParseAnd(ts, pos + 1, depth).value;
        OrLoopTracks(ts, Or(left, right.node), right.next, depth);
      }
    }
  }

  /** The parser accepts what the scan accepts, and fails at the same place for the same reason. */
  lemma ErrorsAreScanned(ts: seq<Token>)
    ensures match Parse(ts)
            case Ok(_) => Scan(ts, 0, Operand, 0) == None
            case Err(error) => Scan(ts, 0, Operand, 0) == Some(error)
  {
    if ts != [] {
      OrTracks(ts, 0, 0);
      hide ParseOr;
    }
  }

  // ----- where an error is reported -----

  function Closings(depth: nat): (ts: seq<Token>)
    ensures |ts| == depth && forall i :: 0 <= i < depth ==> ts[i].kind.RParen?
  {
    seq(depth, _ => Token(RParen, ")", 0))
  }

  /** What makes an expression of the tokens so far. */
  function Completion(need: Need, depth: nat): seq<Token> {
    (if need.Operand? || need.Exception? then [Token(LicenseId, "MIT", 0)] else []) + Closings(depth)
  }

  lemma {:induction false} ClosingsAreAccepted(us: seq<Token>, pos: nat, need: Need, depth: nat)
    requires pos + depth == |us| && (need.Operator? || need.NoException?)
    requires forall i :: pos <= i < |us| ==> us[i].kind.RParen?
    ensures Scan(us, pos, need, depth) == None
    decreases depth
  {
    if depth > 0 {
      ClosingsAreAccepted(us, pos + 1, Operator, depth - 1);
    }
  }

  lemma CompletionIsAccepted(ts: seq<Token>, need: Need, depth: nat)
    ensures Scan(ts + Completion(need, depth), |ts|, need, depth) == None
  {
    var us, n := ts + Completion(need, depth), |ts|;
    hide Scan;
    if need.Operand? || need.Exception? {
      assert us[n] == Token(LicenseId, "MIT", 0);
      var after := if need.Operand? then Operator else NoException;
      assert forall i :: n + 1 <= i < |us| ==> us[i] == Closings(depth)[i - n - 1];
      ClosingsAreAccepted(us, n + 1, after, depth);
      ScanStep(us, n, need, depth);
    } else {
      assert forall i :: n <= i < |us| ==> us[i] == Closings(depth)[i - n];
      ClosingsAreAccepted(us, n, need, depth);
    }
  }

  lemma ScanStep(ts: seq<Token>, pos: nat, need: Need, depth: nat)
    requires pos < |ts| && MoveOn(need, depth, ts[pos].kind).On?
    ensures var m := MoveOn(need, depth, ts[pos].kind); Scan(ts, pos, need, depth) == Scan(ts, pos + 1, m.need, m.depth)
  {
  }

  /** The tokens us begin with the first k of ts. */
  predicate Extends(us: seq<Token>, ts: seq<Token>, k: nat) {
    k <= |ts| && k <= |us| && us[..k] == ts[..k]
  }

  lemma ExtendsAt(us: seq<Token>, ts: seq<Token>, k: nat, i: nat)
    requires Extends(us, ts, k) && i < k
    ensures us[i] == ts[i]
  {
    assert us[..k][i] == ts[..k][i];
  }

  /** The first k tokens begin an expression, and with one more they begin none. */
  ghost predicate FirstFault(ts: seq<Token>, k: nat) {
    && (exists us :: Extends(us, ts, k) && Parse(us).Ok?)
    && (k < |ts| ==> forall us :: Extends(us, ts, k + 1) ==> Parse(us).Err?)
  }

  lemma {:induction false} ScanFindsFault(ts: seq<Token>, pos: nat, need: Need, depth: nat)
    returns (k: nat, whole: seq<Token>)
    requires pos <= |ts| && Scan(ts, pos, need, depth).Some?
    ensures pos <= k <= |ts| && Extends(whole, ts, k) && Scan(whole, pos, need, depth) == None
    ensures var error := Scan(ts, pos, need, depth).value;
            if k < |ts| then
              error.position == k && forall us :: Extends(us, ts, k + 1) ==> Scan(us, pos, need, depth) == Some(error)
            else k - 1 <= error.position <= k
    decreases |ts| - pos
  {
    if pos == |ts| || MoveOn(need, depth, ts[pos].kind).Fault? {
      k, whole := pos, ts[..pos] + Completion(need, depth);
      CompletionIsAccepted(ts[..k], need, depth);
      if pos < |ts| {
        forall us | Extends(us, ts, k + 1)
          ensures Scan(us, pos, need, depth) == Scan(ts, pos, need, depth)
        {
          ExtendsAt(us, ts, k + 1, pos);
        }
      }
    } else {
      var m := MoveOn(need, depth, ts[pos].kind);
      ScanStep(ts, pos, need, depth);
      k, whole := ScanFindsFault(ts, pos + 1, m.need, m.depth);
      hide Scan;
      ExtendsAt(whole, ts, k, pos);
      ScanStep(whole, pos, need, depth);
      if k < |ts| {
        forall us | Extends(us, ts, k + 1)
          ensures Scan(us, pos, need, depth) == Scan(ts, pos, need, depth)
        {
          ExtendsAt(us, ts, k + 1, pos);
          ScanStep(us, pos, need, depth);
        }
      }
    }
  }

  /**
   * An error is reported at the first token with which no expression goes on, or, when the tokens end
   * before an expression does, at the last of them or behind it.
   */
  lemma ErrorsAreFirst(ts: seq<Token>)
    requires Parse(ts).Err?
    ensures exists k: nat ::
              FirstFault(ts, k) && if k < |ts| then Parse(ts).error.position == k
                                   else k - 1 <= Parse(ts).error.position <= k
  {
    ErrorsAreScanned(ts);
    hide Parse, Scan;
    var k, whole := ScanFindsFault(ts, 0, Operand, 0);
    ErrorsAreScanned(whole);
    if k < |ts| {
      forall us | Extends(us, ts, k + 1)
        ensures Parse(us).Err?
      {
        ErrorsAreScanned(us);
      }
    }
    assert FirstFault(ts, k);
  }
}
