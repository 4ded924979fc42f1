/** The expression dispatcher and the step builder of tutorons/xpath/explain.py:
    `explain_expr` with its or / and / equality / relational cases, `explain_predicate`
    and `explain_step`. `ExplainExpr` is the dispatcher as its authors evidently meant
    it; `ExplainExprAsWritten` is the code as it stands, where every path raises. */
module XPathExpr {
  import opened Failures
  import opened ParseTree
  import opened Phrases
  import opened XPathWalk
  import opened XPathClassifier

  /** The variants `explain_expr` explains by coordinating operands 0 and 2. */
  predicate IsBinary(v: Variant) {
    v == OrExpr || v == AndExpr || v == EqualityExpr || v == RelationalExpr
  }

  /** `explain_equalityExpr`: "=" reads "equals", any other operator "does not equal". */
  function EqualityGloss(op: Node): string {
    if Text(op) == "=" then "equals" else "does not equal"
  }

  /** `explain_relationalExpr`: the four comparison tokens; any other token sets no
      conjunction, leaving SimpleNLG's default. */
  function RelationalGloss(t: Token): Option<string> {
    match t
    case Less => Some("less than")
    case More => Some("greater than")
    case Le => Some("less than or equal to")
    case Ge => Some("greater than or equal to")
    case _ => None
  }

  /** The conjunction that coordinates a binary node's operands. Or- and and-expressions
      both use "or", as the code has it. Reading an operator that is not there, or the
      token kind of a child that is a rule, raises. */
  function Conjunction(n: Node): (r: Result<Option<string>>)
    requires n.Rule? && IsBinary(n.variant)
    ensures n.variant == OrExpr || n.variant == AndExpr ==> r == Success(Some("or"))
    ensures n.variant == EqualityExpr ==>
      (r.Success? <==> |n.children| >= 2) &&
      (r.Success? ==> (r.value == Some("equals") <==> Text(n.children[1]) == "="))
    ensures n.variant == EqualityExpr && r.Success? ==>
      r.value == Some(if Text(n.children[1]) == "=" then "equals" else "does not equal")
    ensures n.variant == RelationalExpr ==> (r.Success? <==> |n.children| >= 2 && n.children[1].Terminal?)
    ensures n.variant == RelationalExpr && r.Success? ==> r.value == RelationalGloss(n.children[1].token)
  {
    if n.variant == OrExpr || n.variant == AndExpr then Success(Some("or"))
    else if n.variant == EqualityExpr then
      var op :- Child(n, 1);
      Success(Some(EqualityGloss(op)))
    else
      var op :- Child(n, 1);
      if op.Rule? then Failure(AttributeError("symbol")) else Success(RelationalGloss(op.token))
  }

  /** `explain_expr` with `modifier` initialised to None and returned (the code returns
      the unbound name `clause`), and the operands fetched from the node (the code calls a
      bare `getChild`). Additive and multiplicative expressions, whose handlers are stubs,
      and every production no branch handles give no phrase. */
  function ExplainExpr(node: Node): (r: Result<Phrase>)
    ensures r.Success? ==> r.value == Absent || (r.value.Coordinated? && |r.value.coords| == 2)
    ensures !(Interesting(node).Rule? && IsBinary(Interesting(node).variant)) ==> r == Success(Absent)
    decreases TreeSize(node)
  {
    var n := Interesting(node);
    if n.Rule? && IsBinary(n.variant) then
      var conj :- Conjunction(n);
      var left :- Child(n, 0);
      ChildSmaller(n, 0);
      var leftPhrase :- ExplainExpr(left);
      var right :- Child(n, 2);
      ChildSmaller(n, 2);
      var rightPhrase :- ExplainExpr(right);
      Success(Coordinated(conj, Singular, [leftPhrase, rightPhrase]))
    else
      Success(Absent)
  }

  /** `explain_expr` as written: after the skip, each branch raises before it can return.
      Or, and and equality look up the unbound `getChild` (the equality case reads its
      operator first); the relational case reads the unbound `equality_expr`; the
      multiplicative case calls the unbound `explain_multiplicativeExpr`; every other
      path reaches `return clause`, an unbound name. */
  function ExplainExprAsWritten(node: Node): (r: Result<Phrase>)
    ensures r.Failure?
  {
    var n := Interesting(node);
    if n.Terminal? then Failure(NameError("clause"))
    else match n.variant
      case OrExpr => Failure(NameError("getChild"))
      case AndExpr => Failure(NameError("getChild"))
      case EqualityExpr => if ChildCount(n) < 2 then Failure(MissingChild(1)) else Failure(NameError("getChild"))
      case RelationalExpr => Failure(NameError("equality_expr"))
      case MultiplicativeExpr => Failure(NameError("explain_multiplicativeExpr"))
      case _ => Failure(NameError("clause"))
  }

  /** The explanation of a node is the explanation of the node its unary chain leads to. */
  lemma ExplainSkipsUnaryChain(node: Node)
    ensures ExplainExpr(node) == ExplainExpr(Interesting(node))
  {
    InterestingIdempotent(node);
  }

  /** A binary node coordinates the explanations of operand 0 and operand 2, in that
      order, and succeeds exactly when its operator and both operands do. */
  lemma BinaryCoordinatesInOrder(node: Node)
    requires var n := Interesting(node); n.Rule? && IsBinary(n.variant) && |n.children| >= 3
    requires Conjunction(Interesting(node)).Success?
    ensures var n := Interesting(node);
      (ExplainExpr(node).Success? <==> ExplainExpr(n.children[0]).Success? && ExplainExpr(n.children[2]).Success?) &&
      (ExplainExpr(node).Success? ==>
        ExplainExpr(node).value.conj == Conjunction(n).value &&
        ExplainExpr(node).value.coords == [ExplainExpr(n.children[0]).value, ExplainExpr(n.children[2]).value])
  {
  }

  /** Operands after the first operator are never looked at: `a or b or c` reads as `a or b`. */
  lemma ExtraOperandsIgnored(v: Variant, cs: seq<Node>)
    requires IsBinary(v) && |cs| >= 3
    ensures ExplainExpr(Rule(v, cs)) == ExplainExpr(Rule(v, cs[..3]))
  {
    assert Interesting(Rule(v, cs)) == Rule(v, cs);
    assert Interesting(Rule(v, cs[..3])) == Rule(v, cs[..3]);
  }

  /** The glosses of the four comparison tokens. */
  lemma RelationalGlossValues()
    ensures RelationalGloss(Less) == Some("less than")
    ensures RelationalGloss(More) == Some("greater than")
    ensures RelationalGloss(Le) == Some("less than or equal to")
    ensures RelationalGloss(Ge) == Some("greater than or equal to")
  {
  }

  /** The four comparison tokens read differently, and only they set a conjunction. */
  lemma RelationalGlossesDistinct(t1: Token, t2: Token)
    ensures RelationalGloss(t1).Some? <==> t1 in {Less, More, Le, Ge}
    ensures RelationalGloss(t1).Some? && RelationalGloss(t1) == RelationalGloss(t2) ==> t1 == t2
  {
  }

  /** A binary node that the skip stops at has an operator token between two operands. */
  predicate WellShaped(n: Node) {
    n.Rule? && IsBinary(n.variant) && Branches(n) ==> |n.children| >= 3 && n.children[1].Terminal?
  }

  /** Every node of the tree is well shaped, as the grammar's parser produces them. */
  predicate WellFormed(n: Node) {
    WellShaped(n) && (n.Rule? ==> forall i :: 0 <= i < |n.children| ==> WellFormed(n.children[i]))
  }

  lemma {:induction false} WellFormedAlongChain(n: Node, m: Node)
    requires WellFormed(n) && OnUnaryChain(n, m)
    ensures WellFormed(m)
  {
    if n != m {
      WellFormedAlongChain(n.children[0], m);
    }
  }

  /** On a tree the parser can produce, the dispatcher never raises. */
  lemma {:induction false} WellFormedExplains(node: Node)
    requires WellFormed(node)
    ensures ExplainExpr(node).Success?
    decreases TreeSize(node)
  {
    var n := Interesting(node);
    WellFormedAlongChain(node, n);
    if n.Rule? && IsBinary(n.variant) {
      ChildSmaller(n, 0);
      ChildSmaller(n, 2);
      WellFormedExplains(n.children[0]);
      WellFormedExplains(n.children[2]);
    }
  }

  /** `explain_predicate`: explains the expression in child 1 and then returns None, so a
      step's predicate contributes no phrase; an expression that raises still aborts. */
  function ExplainPredicate(pred: Node): (r: Result<Phrase>)
    ensures r.Success? <==> ChildCount(pred) >= 2 && ExplainExpr(pred.children[1]).Success?
    ensures r.Success? ==> r.value == Absent
  {
    var expr :- Child(pred, 1);
    var discarded :- ExplainExpr(expr);
    Success(Absent)
  }

  /** `explain_step`: a noun phrase whose premodifier is the axis phrase and whose noun is
      the node-test phrase; a predicate modifier is added exactly when the step has three
      children. It succeeds exactly when each part it reads succeeds. */
  function ExplainStep(step: Node): (r: Result<Noun>)
    ensures r.Success? <==>
      ChildCount(step) >= 2 && ExplainAxisSpecifier(step.children[0]).Success? &&
      ChildCount(step.children[1]) >= 1 &&
      (ChildCount(step) == 3 ==> ExplainPredicate(step.children[2]).Success?)
    ensures r.Success? ==>
      r.value.premods == [Word(ExplainAxisSpecifier(step.children[0]).value)] &&
      r.value.head == ExplainNodeTest(step.children[1]).value &&
      r.value.comps == [] &&
      r.value.mods == (if ChildCount(step) == 3 then [ExplainPredicate(step.children[2]).value] else [])
  {
    var axis :- Child(step, 0);
    var preModifier :- ExplainAxisSpecifier(axis);
    var test :- Child(step, 1);
    var noun :- ExplainNodeTest(test);
    if ChildCount(step) == 3 then
      var modifier :- ExplainPredicate(step.children[2]);
      Success(NounPhrase(noun, Singular, [Word(preModifier)], [modifier], []))
    else
      Success(NounPhrase(noun, Singular, [Word(preModifier)], [], []))
  }

  /** A phrase built only of coordinations whose leaves are all no phrase. */
  predicate BareCoordination(p: Phrase) {
    p == Absent || (p.Coordinated? && forall i :: 0 <= i < |p.coords| ==> BareCoordination(p.coords[i]))
  }

  /** Nothing `explain_expr` reaches builds a noun, verb or preposition: even corrected,
      every explanation is a tree of coordinations with no phrase at every leaf. */
  lemma {:induction false} ExplanationsAreBareCoordinations(node: Node)
    requires ExplainExpr(node).Success?
    ensures BareCoordination(ExplainExpr(node).value)
    decreases TreeSize(node)
  {
    var n := Interesting(node);
    if n.Rule? && IsBinary(n.variant) {
      ChildSmaller(n, 0);
      ChildSmaller(n, 2);
      ExplanationsAreBareCoordinations(n.children[0]);
      ExplanationsAreBareCoordinations(n.children[2]);
      var p := ExplainExpr(node).value;
      assert p.coords == [ExplainExpr(n.children[0]).value, ExplainExpr(n.children[2]).value];
    }
  }

  // A concrete operand (a path with one name token) and a concrete expression `a or b = c`.
  function Operand(name: string): Node {
    Rule(OtherRule("pathExprNoRoot"), [Terminal(name, OtherToken("NCName"))])
  }

  function OrOfEquality(): Node {
    Rule(OrExpr, [Operand("a"), Terminal("or", OtherToken("OR")),
      Rule(EqualityExpr, [Operand("b"), Terminal("=", OtherToken("EQ")), Operand("c")])])
  }

  /** `a or b = c`: the code as written raises NameError on `getChild`; the dispatcher as
      intended nests the equality inside the or-coordination. */
  lemma OrOfEqualityExample()
    ensures ExplainExprAsWritten(OrOfEquality()) == Failure(NameError("getChild"))
    ensures ExplainExpr(OrOfEquality()) ==
      Success(Coordinated(Some("or"), Singular, [Absent, Coordinated(Some("equals"), Singular, [Absent, Absent])]))
  {
    var eq := OrOfEquality().children[2];
    assert Interesting(eq) == eq;
    assert ExplainExpr(eq) == Success(Coordinated(Some("equals"), Singular, [Absent, Absent]));
  }

  /** Relational and multiplicative expressions as written raise on other unbound names. */
  lemma AsWrittenUnboundNames(cs: seq<Node>)
    requires |cs| != 1
    ensures ExplainExprAsWritten(Rule(RelationalExpr, cs)) == Failure(NameError("equality_expr"))
    ensures ExplainExprAsWritten(Rule(MultiplicativeExpr, cs)) == Failure(NameError("explain_multiplicativeExpr"))
    ensures ExplainExprAsWritten(Rule(AdditiveExpr, cs)) == Failure(NameError("clause"))
    ensures ExplainExpr(Rule(AdditiveExpr, cs)) == Success(Absent)
  {
  }
}
