/** Precedence climbing in `AcuParser_ParseExpression`, on literals, identifiers, parentheses, unary
    and binary operators: the parser as it moves its cursor, the trees it accepts, and both
    directions between token sequences and well-shaped trees. */
module Parser {
  import Words

  datatype BinOp = Or | And | BitOr | BitXor | BitAnd | Eq | Neq | Lt | Lte | Gt | Gte
                 | Shl | Shr | Add | Sub | Mul | Div | Rem | Power

  datatype UnOp = Plus | Minus | LogicalNot | BitwiseNot

  /** Tokens outside the fragment keep their infix precedence; `opensOther` marks those that begin
      some other kind of expression. */
  datatype Token = Literal(value: nat) | Name(id: nat) | LParen | RParen | Operator(op: BinOp)
                 | Exclamation | Tilde | Foreign(prec: nat, opensOther: bool)

  const PREC_NONE: nat := 0
  const PREC_UNARY: nat := 14
  const PREC_POSTFIX: nat := 15
  const MAX_DEPTH: nat := 255

  function OpPrec(op: BinOp): (p: nat)
    ensures 3 <= p <= 13
  {
    match op
    case Or => 3
    case And => 4
    case BitOr => 5
    case BitXor => 6
    case BitAnd => 7
    case Eq | Neq => 8
    case Lt | Lte | Gt | Gte => 9
    case Shl | Shr => 10
    case Add | Sub => 11
    case Mul | Div | Rem => 12
    case Power => 13
  }

  /** `AcuPrecedence_FromTokenType`. */
  function Prec(t: Token): nat {
    match t
    case Operator(op) => OpPrec(op)
    case LParen => PREC_POSTFIX
    case Foreign(prec, _) => prec
    case _ => PREC_NONE
  }

  /** The precedence an operator parses its right operand with: its own, or one less for the
      right-associative power. */
  function RightPrec(op: BinOp): nat { if op == Power then OpPrec(op) - 1 else OpPrec(op) }

  function UnaryOf(t: Token): (op: UnOp)
    requires IsUnaryToken(t)
  {
    match t
    case Operator(Add) => Plus
    case Operator(_) => Minus
    case Exclamation => LogicalNot
    case _ => BitwiseNot
  }

  predicate IsUnaryToken(t: Token) {
    t == Operator(Add) || t == Operator(Sub) || t == Exclamation || t == Tilde
  }

  function UnaryToken(op: UnOp): (t: Token)
    ensures IsUnaryToken(t) && UnaryOf(t) == op
  {
    match op
    case Plus => Operator(Add)
    case Minus => Operator(Sub)
    case LogicalNot => Exclamation
    case BitwiseNot => Tilde
  }

  // ---- trees ----------------------------------------------------------------------------------------

  /** The syntax tree the parser builds; parentheses leave no node. */
  datatype Ast = NumberNode(value: nat) | NameNode(id: nat) | UnaryNode(op: UnOp, operand: Ast)
               | BinaryNode(bop: BinOp, left: Ast, right: Ast)

  /** The same tree with its parentheses. */
  datatype Tree = Number(value: nat) | Ident(id: nat) | Group(inner: Tree) | Unary(uop: UnOp, operand: Tree)
                | Binary(op: BinOp, left: Tree, right: Tree)

  function Erase(t: Tree): Ast {
    match t
    case Number(v) => NumberNode(v)
    case Ident(id) => NameNode(id)
    case Group(inner) => Erase(inner)
    case Unary(op, operand) => UnaryNode(op, Erase(operand))
    case Binary(op, left, right) => BinaryNode(op, Erase(left), Erase(right))
  }

  /** The tokens of a tree, read in order. */
  function Flatten(t: Tree): (r: seq<Token>)
    ensures |r| >= 1
  {
    match t
    case Number(v) => [Literal(v)]
    case Ident(id) => [Name(id)]
    case Group(inner) => [LParen] + Flatten(inner) + [RParen]
    case Unary(op, operand) => [UnaryToken(op)] + Flatten(operand)
    case Binary(op, left, right) => Flatten(left) + [Operator(op)] + Flatten(right)
  }

  /** Every operator on the spine binds tighter than `p`. The right operand of an operator is at least
      as tight as the operator asks for; its left operand does not want the operator for itself. */
  predicate WellShaped(t: Tree, p: nat) {
    match t
    case Number(_) => true
    case Ident(_) => true
    case Group(inner) => WellShaped(inner, PREC_NONE)
    case Unary(_, operand) => WellShaped(operand, PREC_UNARY)
    case Binary(op, left, right) =>
      OpPrec(op) > p && WellShaped(left, p) && WellShaped(right, RightPrec(op)) &&
      (left.Binary? ==> RightPrec(left.op) >= OpPrec(op))
  }

  /** How deep the parser recurses for a tree. */
  function Depth(t: Tree): nat {
    match t
    case Number(_) => 0
    case Ident(_) => 0
    case Group(inner) => 1 + Depth(inner)
    case Unary(_, operand) => 1 + Depth(operand)
    case Binary(_, left, right) => Max(Depth(left), 1 + Depth(right))
  }

  function Max(a: nat, b: nat): nat { if a < b then b else a }

  /** Associativity and precedence as a reader knows them: a left-associative operator has a strictly
      tighter operator on its right and one at least as tight on its left; the power the other way
      round. Operands under a unary operator or in parentheses are closed. */
  lemma AssociativityOfShape(t: Tree, p: nat)
    requires WellShaped(t, p) && t.Binary?
    ensures OpPrec(t.op) > p
    ensures t.op != Power && t.right.Binary? ==> OpPrec(t.right.op) > OpPrec(t.op)
    ensures t.op != Power && t.left.Binary? && t.left.op != Power ==> OpPrec(t.left.op) >= OpPrec(t.op)
    ensures t.op == Power ==> !t.left.Binary? || OpPrec(t.left.op) > OpPrec(t.op)
    ensures t.op == Power && t.right.Binary? ==> OpPrec(t.right.op) >= OpPrec(t.op)
    ensures t.left.Unary? ==> !t.left.operand.Binary?
  {
    assert t.left.Unary? ==> WellShaped(t.left.operand, PREC_UNARY);
  }

  // ---- the parser as a function of the remaining tokens ---------------------------------------------

  datatype Parse = Parsed(tree: Tree, rest: seq<Token>) | Rejected | Outside

  /** The next token does not continue an expression parsed with precedence `p`. */
  predicate Stops(ts: seq<Token>, p: nat) { ts == [] || Prec(ts[0]) <= p }

  function ParsePrefix(ts: seq<Token>, depth: nat): (r: Parse)
    ensures r.Parsed? ==> |r.rest| < |ts|
    decreases |ts|, 1
  {
    if ts == [] then Rejected
    else if ts[0].Literal? then Parsed(Number(ts[0].value), ts[1..])
    else if ts[0].Name? then Parsed(Ident(ts[0].id), ts[1..])
    else if ts[0].LParen? then CloseGroup(ParseExpr(ts[1..], PREC_NONE, depth + 1))
    else if IsUnaryToken(ts[0]) then
      WrapUnary(UnaryOf(ts[0]), ParseExpr(ts[1..], PREC_UNARY, depth + 1))
    else if OpensOther(ts[0]) then Outside
    else Rejected
  }

  /** Tokens that begin an expression outside the fragment; `^` begins a return. */
  predicate OpensOther(t: Token) { t == Operator(BitXor) || (t.Foreign? && t.opensOther) }

  function CloseGroup(inner: Parse): (r: Parse)
    ensures r.Parsed? ==> inner.Parsed? && inner.rest == [RParen] + r.rest && r.tree == Group(inner.tree)
  {
    if inner.Parsed? then
      if inner.rest != [] && inner.rest[0] == RParen then Parsed(Group(inner.tree), inner.rest[1..]) else Rejected
    else inner
  }

  function WrapUnary(op: UnOp, operand: Parse): Parse {
    if operand.Parsed? then Parsed(Unary(op, operand.tree), operand.rest) else operand
  }

  function ParseExpr(ts: seq<Token>, p: nat, depth: nat): (r: Parse)
    ensures r.Parsed? ==> |r.rest| < |ts|
    decreases |ts|, 2
  {
    if depth > MAX_DEPTH then Rejected
    else
      var prefix := ParsePrefix(ts, depth);
      if prefix.Parsed? then ParseInfixes(prefix.tree, prefix.rest, p, depth) else prefix
  }

  /** The loop over infix operators. */
  function ParseInfixes(left: Tree, ts: seq<Token>, p: nat, depth: nat): (r: Parse)
    ensures r.Parsed? ==> |r.rest| <= |ts|
    decreases |ts|, 0
  {
    if Stops(ts, p) then Parsed(left, ts)
    else if ts[0].Operator? then
      var right := ParseExpr(ts[1..], RightPrec(ts[0].op), depth + 1);
      if right.Parsed? then ParseInfixes(Binary(ts[0].op, left, right.tree), right.rest, p, depth) else right
    else Outside
  }

  // ---- soundness ------------------------------------------------------------------------------------

  ghost predicate SoundParse(ts: seq<Token>, p: nat, depth: nat, r: Parse) {
    r.Parsed? ==>
      ts == Flatten(r.tree) + r.rest && WellShaped(r.tree, p) && Stops(r.rest, p) &&
      depth + Depth(r.tree) <= MAX_DEPTH
  }

  /** What a parse has consumed reads back as its tree, and the tree has the right shape. */
  lemma {:induction false} ParseIsSound(ts: seq<Token>, p: nat, depth: nat)
    ensures SoundParse(ts, p, depth, ParseExpr(ts, p, depth))
    decreases |ts|, 2
  {
    hide Flatten;
    hide WellShaped;
    hide Depth;
    hide ParsePrefix;
    hide ParseInfixes;
    hide Stops;
    if depth <= MAX_DEPTH {
      var prefix := ParsePrefix(ts, depth);
      PrefixIsSound(ts, depth, p);
      if prefix.Parsed? {
        InfixesAreSound(prefix.tree, prefix.rest, p, depth);
        SoundTogether(ts, prefix, p, depth, ParseExpr(ts, p, depth));
      }
    }
  }

  lemma SoundTogether(ts: seq<Token>, prefix: Parse, p: nat, depth: nat, r: Parse)
    requires prefix.Parsed? && ts == Flatten(prefix.tree) + prefix.rest
    requires Extends(prefix.tree, prefix.rest, p, depth, r)
    ensures SoundParse(ts, p, depth, r)
  {
    hide Flatten;
    hide WellShaped;
    hide Depth;
    hide Stops;
    if r.Parsed? {
      var mid :| Appends(prefix.tree, prefix.rest, r, mid);
      Splice(Flatten(prefix.tree), mid, r.rest, [], []);
      assert ts == Flatten(prefix.tree) + (mid + r.rest) == (Flatten(prefix.tree) + mid) + r.rest;
    }
  }

  lemma {:induction false} PrefixIsSound(ts: seq<Token>, depth: nat, p: nat)
    requires depth <= MAX_DEPTH
    ensures var r := ParsePrefix(ts, depth);
            r.Parsed? ==> ts == Flatten(r.tree) + r.rest && WellShaped(r.tree, p) && !r.tree.Binary? &&
                          depth + Depth(r.tree) <= MAX_DEPTH
    decreases |ts|, 1
  {
    hide ParseExpr;
    hide Stops;
    if ts != [] {
      ParseIsSound(ts[1..], PREC_NONE, depth + 1);
      ParseIsSound(ts[1..], PREC_UNARY, depth + 1);
      if ts[0].LParen? {
        GroupIsSound(ts, depth, p, ParseExpr(ts[1..], PREC_NONE, depth + 1));
      } else if IsUnaryToken(ts[0]) {
        UnaryIsSound(ts, depth, p, ParseExpr(ts[1..], PREC_UNARY, depth + 1));
      } else {
        assert ts == [ts[0]] + ts[1..];
      }
    }
  }

  lemma GroupIsSound(ts: seq<Token>, depth: nat, p: nat, inner: Parse)
    requires ts != [] && ts[0] == LParen && SoundParse(ts[1..], PREC_NONE, depth + 1, inner)
    ensures var r := CloseGroup(inner);
            r.Parsed? ==> ts == Flatten(r.tree) + r.rest && WellShaped(r.tree, p) &&
                          depth + Depth(r.tree) <= MAX_DEPTH
  {
    var r := CloseGroup(inner);
    if r.Parsed? {
      assert ts == [LParen] + ts[1..] == [LParen] + (Flatten(inner.tree) + ([RParen] + r.rest));
      Splice([LParen], Flatten(inner.tree), [RParen], r.rest, []);
    }
  }

  lemma UnaryIsSound(ts: seq<Token>, depth: nat, p: nat, operand: Parse)
    requires ts != [] && IsUnaryToken(ts[0]) && SoundParse(ts[1..], PREC_UNARY, depth + 1, operand)
    ensures var r := WrapUnary(UnaryOf(ts[0]), operand);
            r.Parsed? ==> ts == Flatten(r.tree) + r.rest && WellShaped(r.tree, p) &&
                          depth + Depth(r.tree) <= MAX_DEPTH
  {
    var r := WrapUnary(UnaryOf(ts[0]), operand);
    if r.Parsed? {
      assert UnaryToken(UnaryOf(ts[0])) == ts[0];
      assert ts == [ts[0]] + ts[1..] == [ts[0]] + (Flatten(operand.tree) + r.rest);
    }
  }

  lemma {:induction false} InfixesAreSound(left: Tree, ts: seq<Token>, p: nat, depth: nat)
    requires WellShaped(left, p) && depth + Depth(left) <= MAX_DEPTH
    requires left.Binary? ==> Stops(ts, RightPrec(left.op))
    ensures Extends(left, ts, p, depth, ParseInfixes(left, ts, p, depth))
    decreases |ts|, 0
  {
    hide Flatten;
    hide WellShaped;
    if Stops(ts, p) {
      assert Flatten(left) == Flatten(left) + [] && ts == [] + ts;
      assert Appends(left, ts, Parsed(left, ts), []);
    } else if ts[0].Operator? {
      var op := ts[0].op;
      ParseIsSound(ts[1..], RightPrec(op), depth + 1);
      var right := ParseExpr(ts[1..], RightPrec(op), depth + 1);
      if right.Parsed? {
        var tree := Binary(op, left, right.tree);
        BinaryShaped(tree, p, depth);
        InfixesAreSound(tree, right.rest, p, depth);
        var r := ParseInfixes(left, ts, p, depth);
        if r.Parsed? {
          ExtendsStep(left, ts, right.tree, right.rest, r);
        }
      }
    }
  }

  /** What the infix loop adds to the tree it starts with. */
  ghost predicate Extends(left: Tree, ts: seq<Token>, p: nat, depth: nat, r: Parse) {
    r.Parsed? ==>
      WellShaped(r.tree, p) && Stops(r.rest, p) && depth + Depth(r.tree) <= MAX_DEPTH &&
      exists mid :: Appends(left, ts, r, mid)
  }

  ghost predicate Appends(left: Tree, ts: seq<Token>, r: Parse, mid: seq<Token>)
    requires r.Parsed?
  {
    Flatten(r.tree) == Flatten(left) + mid && ts == mid + r.rest
  }

  lemma BinaryShaped(t: Tree, p: nat, depth: nat)
    requires t.Binary? && OpPrec(t.op) > p && WellShaped(t.left, p) && WellShaped(t.right, RightPrec(t.op))
    requires t.left.Binary? ==> RightPrec(t.left.op) >= OpPrec(t.op)
    requires depth + Depth(t.left) <= MAX_DEPTH && depth + 1 + Depth(t.right) <= MAX_DEPTH
    ensures WellShaped(t, p) && depth + Depth(t) <= MAX_DEPTH
  {
  }

  lemma ExtendsStep(left: Tree, ts: seq<Token>, right: Tree, rest: seq<Token>, r: Parse)
    requires ts != [] && ts[0].Operator? && ts[1..] == Flatten(right) + rest && r.Parsed?
    requires exists mid :: Appends(Binary(ts[0].op, left, right), rest, r, mid)
    ensures exists mid :: Appends(left, ts, r, mid)
  {
    var tree := Binary(ts[0].op, left, right);
    assert Flatten(tree) == Flatten(left) + [ts[0]] + Flatten(right);
    hide Flatten;
    var mid :| Appends(tree, rest, r, mid);
    var whole := [ts[0]] + Flatten(right) + mid;
    Splice(Flatten(left), [ts[0]], Flatten(right), mid, r.rest);
    assert ts == [ts[0]] + ts[1..];
    assert Appends(left, ts, r, whole);
  }

  lemma Splice(f: seq<Token>, o: seq<Token>, g: seq<Token>, mid: seq<Token>, tail: seq<Token>)
    ensures f + o + g + mid == f + (o + g + mid)
    ensures o + (g + (mid + tail)) == o + g + mid + tail
  {
  }

  // ---- completeness ---------------------------------------------------------------------------------

  /** Parsing the tokens of a well-shaped tree comes to the point where exactly this tree has been
      built and the rest is still to be read. */
  lemma {:induction false} BuildsTree(t: Tree, rest: seq<Token>, p: nat, depth: nat)
    requires WellShaped(t, p) && depth + Depth(t) <= MAX_DEPTH && Stops(rest, PREC_UNARY)
    requires t.Binary? ==> Stops(rest, RightPrec(t.op))
    ensures ParseExpr(Flatten(t) + rest, p, depth) == ParseInfixes(t, rest, p, depth)
    decreases t, 2
  {
    hide ParseInfixes;
    var ts := Flatten(t) + rest;
    match t {
      case Number(v) => assert ts == [Literal(v)] + rest && ts[1..] == rest;
      case Ident(id) => assert ts == [Name(id)] + rest && ts[1..] == rest;
      case Group(inner) => BuildsGroup(inner, rest, p, depth);
      case Unary(op, operand) => BuildsUnary(op, operand, rest, p, depth);
      case Binary(op, left, right) => BuildsBinary(op, left, right, rest, p, depth);
    }
  }

  lemma {:induction false} BuildsGroup(inner: Tree, rest: seq<Token>, p: nat, depth: nat)
    requires WellShaped(inner, PREC_NONE) && depth + 1 + Depth(inner) <= MAX_DEPTH
    ensures ParseExpr(Flatten(Group(inner)) + rest, p, depth) == ParseInfixes(Group(inner), rest, p, depth)
    decreases inner, 3
  {
    var ts, after := Flatten(Group(inner)) + rest, [RParen] + rest;
    assert ts[0] == LParen && ts[1..] == Flatten(inner) + after && after[1..] == rest;
    hide Flatten;
    hide WellShaped;
    BuildsTree(inner, after, PREC_NONE, depth + 1);
    assert ParseExpr(ts[1..], PREC_NONE, depth + 1) == Parsed(inner, after);
    assert ParsePrefix(ts, depth) == Parsed(Group(inner), rest);
  }

  lemma {:induction false} BuildsUnary(op: UnOp, operand: Tree, rest: seq<Token>, p: nat, depth: nat)
    requires WellShaped(operand, PREC_UNARY) && depth + 1 + Depth(operand) <= MAX_DEPTH && Stops(rest, PREC_UNARY)
    ensures ParseExpr(Flatten(Unary(op, operand)) + rest, p, depth) ==
            ParseInfixes(Unary(op, operand), rest, p, depth)
    decreases operand, 3
  {
    var ts := Flatten(Unary(op, operand)) + rest;
    assert ts[0] == UnaryToken(op) && ts[1..] == Flatten(operand) + rest;
    assert !operand.Binary?;
    hide Flatten;
    hide WellShaped;
    BuildsTree(operand, rest, PREC_UNARY, depth + 1);
    assert ParseExpr(ts[1..], PREC_UNARY, depth + 1) == Parsed(operand, rest);
    assert ParsePrefix(ts, depth) == Parsed(Unary(op, operand), rest);
  }

  lemma {:induction false} BuildsBinary(op: BinOp, left: Tree, right: Tree, rest: seq<Token>, p: nat, depth: nat)
    requires WellShaped(Binary(op, left, right), p) && depth + Depth(Binary(op, left, right)) <= MAX_DEPTH
    requires Stops(rest, RightPrec(op))
    ensures ParseExpr(Flatten(Binary(op, left, right)) + rest, p, depth) ==
            ParseInfixes(Binary(op, left, right), rest, p, depth)
    decreases Binary(op, left, right), 0
  {
    var ts, after := Flatten(Binary(op, left, right)) + rest, [Operator(op)] + (Flatten(right) + rest);
    assert ts == Flatten(left) + after && after[0] == Operator(op) && after[1..] == Flatten(right) + rest;
    assert right.Binary? ==> OpPrec(right.op) > RightPrec(op);
    hide Flatten;
    BuildsTree(left, after, p, depth);
    BuildsTree(right, rest, RightPrec(op), depth + 1);
    hide WellShaped;
    assert ParseExpr(after[1..], RightPrec(op), depth + 1) == Parsed(right, rest);
  }

  /** Round trip: the tokens of every well-shaped tree within the depth limit parse to that tree,
      whatever follows them that does not continue the expression. */
  lemma ParseOfFlatten(t: Tree, rest: seq<Token>, p: nat, depth: nat)
    requires WellShaped(t, p) && depth + Depth(t) <= MAX_DEPTH && p <= PREC_UNARY && Stops(rest, p)
    ensures ParseExpr(Flatten(t) + rest, p, depth) == Parsed(t, rest)
  {
    BuildsTree(t, rest, p, depth);
  }

  /** The grammar is unambiguous: at most one well-shaped tree reads as given tokens. */
  lemma Unambiguous(t: Tree, u: Tree, rest: seq<Token>, rest': seq<Token>, p: nat)
    requires WellShaped(t, p) && WellShaped(u, p) && p <= PREC_UNARY && Stops(rest, p) && Stops(rest', p)
    requires Flatten(t) + rest == Flatten(u) + rest' && Depth(t) <= MAX_DEPTH && Depth(u) <= MAX_DEPTH
    ensures t == u && rest == rest'
  {
    ParseOfFlatten(t, rest, p, 0);
    ParseOfFlatten(u, rest', p, 0);
  }

  // ---- the parser with its cursor -------------------------------------------------------------------

  class Cursor {
    const tokens: seq<Token>
    var pos: nat
    var failed: bool

    ghost predicate Valid()
      reads this
    {
      pos <= |tokens|
    }

    ghost function Rest(): seq<Token>
      requires Valid()
      reads this
    {
      tokens[pos..]
    }

    constructor (tokens: seq<Token>)
      ensures Valid() && this.tokens == tokens && Rest() == tokens && !failed
    {
      this.tokens := tokens;
      pos, failed := 0, false;
    }

    /** What a call leaves behind: the tree of the parse and the cursor behind it, or the failure
        flag; nothing is promised once the input has left the fragment. */
    ghost predicate Leaves(r: Parse, node: Words.Option<Ast>)
      requires Valid()
      reads this
    {
      match r
      case Parsed(tree, rest) => node == Words.Some(Erase(tree)) && Rest() == rest
      case Rejected => failed
      case Outside => true
    }

    /** `AcuParser_ParseExpression`: the prefix, then operators as long as they bind tighter. After a
        reported error the source parses on; the failure flag stays up. */
    method ParseExpression(p: nat, depth: nat) returns (node: Words.Option<Ast>)
      requires Valid()
      modifies this`pos, this`failed
      ensures Valid() && pos >= old(pos) && (old(failed) ==> failed)
      ensures Leaves(ParseExpr(old(Rest()), p, depth), node)
      ensures ParseExpr(old(Rest()), p, depth).Parsed? ==> failed == old(failed)
      decreases |tokens| - pos, 2
    {
      hide ParseInfixes;
      hide ParsePrefix;
      ghost var r := ParseExpr(Rest(), p, depth);
      if depth > MAX_DEPTH {
        failed := true;
        return Words.None;
      }
      ghost var prefix := ParsePrefix(Rest(), depth);
      node := ParsePrefixExpression(depth);
      if node.None? { return; }
      ghost var lost := !prefix.Parsed?;
      ghost var left := if lost then Number(0) else prefix.tree;
      while pos < |tokens| && Prec(tokens[pos]) > p
        invariant Valid() && pos >= old(pos) && node.Some? && (old(failed) ==> failed)
        invariant lost ==> !r.Parsed? && (r.Rejected? ==> failed)
        invariant !lost ==> r == ParseInfixes(left, Rest(), p, depth) && node.value == Erase(left) &&
                            failed == old(failed)
        decreases |tokens| - pos
      {
        ghost var before := Rest();
        InfixStep(left, before, p, depth);
        if !tokens[pos].Operator? { return; }
        ghost var op := tokens[pos].op;
        ghost var right := ParseExpr(before[1..], RightPrec(op), depth + 1);
        node := ParseInfix(node.value, depth);
        if node.None? { return; }
        if right.Parsed? {
          left := Binary(op, left, right.tree);
        } else {
          lost := true;
        }
      }
      InfixEnd(left, Rest(), p, depth);
    }

    /** `AcuParser_ParseInfix` on a binary operator, with `AcuParser_ParseBinary`. */
    method ParseInfix(left: Ast, depth: nat) returns (node: Words.Option<Ast>)
      requires Valid() && pos < |tokens| && tokens[pos].Operator?
      modifies this`pos, this`failed
      ensures Valid() && pos > old(pos) && (old(failed) ==> failed)
      ensures var op := old(tokens[pos]).op;
              var right := ParseExpr(old(Rest())[1..], RightPrec(op), depth + 1);
              match right
              case Parsed(tree, rest) => node == Words.Some(BinaryNode(op, left, Erase(tree))) && Rest() == rest &&
                                         failed == old(failed)
              case Rejected => failed
              case Outside => true
      decreases |tokens| - pos, 0
    {
      var op := tokens[pos].op;
      assert tokens[pos + 1..] == Rest()[1..];
      pos := pos + 1;
      var right := ParseExpression(RightPrec(op), depth + 1);
      node := if right.None? then Words.None else Words.Some(BinaryNode(op, left, right.value));
    }

    /** `AcuParser_ParsePrefix`, with `AcuParser_ParseUnary`. */
    method ParsePrefixExpression(depth: nat) returns (node: Words.Option<Ast>)
      requires Valid() && depth <= MAX_DEPTH
      modifies this`pos, this`failed
      ensures Valid() && pos >= old(pos) && (old(failed) ==> failed)
      ensures Leaves(ParsePrefix(old(Rest()), depth), node)
      ensures ParsePrefix(old(Rest()), depth).Parsed? ==> failed == old(failed) && pos > old(pos)
      decreases |tokens| - pos, 1
    {
      hide ParseExpr;
      if pos == |tokens| {
        failed := true;
        return Words.None;
      }
      var tok := tokens[pos];
      assert tok == Rest()[0] && tokens[pos + 1..] == Rest()[1..];
      pos := pos + 1;
      if tok.Literal? {
        node := Words.Some(NumberNode(tok.value));
      } else if tok.Name? {
        node := Words.Some(NameNode(tok.id));
      } else if tok.LParen? {
        node := ParseExpression(PREC_NONE, depth + 1);
        if pos < |tokens| && tokens[pos] == RParen {
          assert tokens[pos + 1..] == Rest()[1..];
          pos := pos + 1;
        } else {
          failed := true;
        }
      } else if IsUnaryToken(tok) {
        var operand := ParseExpression(PREC_UNARY, depth + 1);
        node := if operand.None? then Words.None else Words.Some(UnaryNode(UnaryOf(tok), operand.value));
      } else {
        failed := true;
        node := Words.None;
      }
    }
  }

  /** One turn of the infix loop. */
  lemma InfixStep(left: Tree, ts: seq<Token>, p: nat, depth: nat)
    requires ts != [] && Prec(ts[0]) > p
    ensures !ts[0].Operator? ==> ParseInfixes(left, ts, p, depth) == Outside
    ensures ts[0].Operator? ==>
              var right := ParseExpr(ts[1..], RightPrec(ts[0].op), depth + 1);
              ParseInfixes(left, ts, p, depth) ==
              if right.Parsed? then ParseInfixes(Binary(ts[0].op, left, right.tree), right.rest, p, depth) else right
  {
  }

  lemma InfixEnd(left: Tree, ts: seq<Token>, p: nat, depth: nat)
    requires Stops(ts, p)
    ensures ParseInfixes(left, ts, p, depth) == Parsed(left, ts)
  {
  }
}
