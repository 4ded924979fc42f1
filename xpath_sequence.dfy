/** The combinator left-fold of tutorons/xpath/explain.py (`explain_xpath`): the children
    of a selector are visited left to right; a selector sequence takes the phrase built
    so far as its complement and replaces it, and a combinator wraps the phrase built so
    far in a fixed shape. A chain of sequences becomes one right-nested phrase. */
module XPathSequence {
  import opened Failures
  import opened ParseTree
  import opened Phrases

  /** `explain_simple_selector_sequence(child, focus)`. The module never defines it; the
      model receives it as an argument, and `None` stands for the unbound name. */
  type SequenceExplainer = (Node, bool) -> Noun

  predicate IsSequence(n: Node) {
    n.Rule? && n.variant == SimpleSelectorSequence
  }

  predicate IsCombinator(n: Node) {
    n.Rule? && n.variant == Combinator
  }

  /** A combinator node whose first child is the combinator token. */
  predicate CombinatorWellFormed(n: Node) {
    IsCombinator(n) ==> |n.children| >= 1 && n.children[0].Terminal?
  }

  /** Space: the later sequence is chosen "from" the earlier one. */
  function FromPhrase(acc: Phrase): Phrase {
    PrepPhrase("from", [], [acc])
  }

  /** `>`: "are children of" the earlier phrase, the clause and its object plural. */
  function ChildrenOfPhrase(acc: Phrase): Phrase {
    Clause(Plural, VerbPhrase("be", [], []), NounPhrase(Word("child"), Plural, [], [], [PrepPhrase("of", [], [acc])]))
  }

  /** The first coordinate of `~` and `+`: "are siblings of", with an "of" that gets no complement. */
  const SiblingsClause: Phrase :=
    Clause(Singular, VerbPhrase("be", [], []), NounPhrase(Word("sibling"), Plural, [], [], [PrepPhrase("of", [], [])]))

  /** `~`: siblings that eventually appear after the earlier phrase. */
  function EventuallyAfterPhrase(acc: Phrase): Phrase {
    Coordinated(None, Plural, [SiblingsClause, AppearAfter([Word("eventually")], [], acc)])
  }

  /** `+`: siblings that appear right after the earlier phrase. */
  function RightAfterPhrase(acc: Phrase): Phrase {
    Coordinated(None, Plural, [SiblingsClause, AppearAfter([], [Word("right")], acc)])
  }

  /** The phrase a combinator token makes of the accumulator; other tokens leave it alone. */
  function Combine(symbol: Token, acc: Phrase): Phrase {
    match symbol
    case Space => FromPhrase(acc)
    case Greater => ChildrenOfPhrase(acc)
    case Tilde => EventuallyAfterPhrase(acc)
    case Plus => RightAfterPhrase(acc)
    case _ => acc
  }

  /** Reads back, from a phrase built by `symbol`, the accumulator it was built around. */
  function Related(symbol: Token, p: Phrase): Option<Phrase> {
    match symbol
    case Space =>
      if p.PrepPhrase? && |p.comps| == 1 then Some(p.comps[0]) else None
    case Greater =>
      if p.Clause? && p.target.NounPhrase? && |p.target.comps| == 1 && p.target.comps[0].PrepPhrase?
        && |p.target.comps[0].comps| == 1
      then Some(p.target.comps[0].comps[0]) else None
    case Tilde => AfterComplement(p)
    case Plus => AfterComplement(p)
    case _ => Some(p)
  }

  /** Reads back the complement of "appear after" in a `~` or `+` phrase. */
  function AfterComplement(p: Phrase): Option<Phrase> {
    if p.Coordinated? && |p.coords| == 2 && p.coords[1].Clause? && p.coords[1].verb.VerbPhrase?
      && |p.coords[1].verb.comps| == 1 && p.coords[1].verb.comps[0].PrepPhrase?
      && |p.coords[1].verb.comps[0].comps| == 1
    then Some(p.coords[1].verb.comps[0].comps[0]) else None
  }

  lemma SizeAllSingle(a: Phrase)
    ensures SizeAll([a]) == Size(a)
  {
    assert [a][1..] == [];
  }

  lemma SizeAllPair(a: Phrase, b: Phrase)
    ensures SizeAll([a, b]) == Size(a) + Size(b)
  {
    assert [a, b][1..] == [b];
    SizeAllSingle(b);
  }

  lemma WithinSingle(x: Phrase, a: Phrase)
    requires Within(x, a)
    ensures WithinSome(x, [a])
  {
    assert [a][0] == a;
  }

  lemma FromEmbeds(acc: Phrase)
    ensures Within(acc, FromPhrase(acc)) && Size(FromPhrase(acc)) == 1 + Size(acc)
  {
    SizeAllSingle(acc);
    WithinSingle(acc, acc);
  }

  lemma ChildrenOfEmbeds(acc: Phrase)
    ensures Within(acc, ChildrenOfPhrase(acc)) && Size(ChildrenOfPhrase(acc)) == 5 + Size(acc)
  {
    var ofAcc := PrepPhrase("of", [], [acc]);
    FromEmbeds(acc);
    assert Within(acc, ofAcc) && Size(ofAcc) == 1 + Size(acc) by {
      SizeAllSingle(acc);
      WithinSingle(acc, acc);
    }
    WithinSingle(acc, ofAcc);
    SizeAllSingle(ofAcc);
    var children := NounPhrase(Word("child"), Plural, [], [], [ofAcc]);
    assert Size(children) == 2 + Size(ofAcc);
    assert Within(acc, children);
  }

  /** Every combinator puts the accumulator in exactly one place: it can be read back
      from there, and the phrase grows by the accumulator's size and no more. */
  lemma CombineEmbedsOnce(symbol: Token, acc: Phrase)
    ensures Related(symbol, Combine(symbol, acc)) == Some(acc)
    ensures Within(acc, Combine(symbol, acc))
    ensures Size(Combine(symbol, acc)) == Size(Combine(symbol, Absent)) - 1 + Size(acc)
  {
    match symbol
    case Space =>
      FromEmbeds(acc);
      FromEmbeds(Absent);
    case Greater =>
      ChildrenOfEmbeds(acc);
      ChildrenOfEmbeds(Absent);
    case Tilde =>
      AppearAfterEmbeds([Word("eventually")], [], acc);
    case Plus =>
      AppearAfterEmbeds([], [Word("right")], acc);
    case _ =>
  }

  /** The second coordinate of `~` and `+`, around the accumulator. */
  function AppearAfter(verbPremods: seq<Phrase>, prepPremods: seq<Phrase>, acc: Phrase): Phrase {
    Clause(Singular, VerbPhrase("appear", verbPremods, [PrepPhrase("after", prepPremods, [acc])]), Absent)
  }

  lemma AppearAfterSize(verbPremods: seq<Phrase>, prepPremods: seq<Phrase>, acc: Phrase)
    ensures Within(acc, AppearAfter(verbPremods, prepPremods, acc))
    ensures Size(AppearAfter(verbPremods, prepPremods, acc)) == 4 + SizeAll(verbPremods) + SizeAll(prepPremods) + Size(acc)
  {
    var after := PrepPhrase("after", prepPremods, [acc]);
    SizeAllSingle(acc);
    WithinSingle(acc, acc);
    assert Size(after) == 1 + SizeAll(prepPremods) + Size(acc);
    SizeAllSingle(after);
    WithinSingle(acc, after);
    var verb := VerbPhrase("appear", verbPremods, [after]);
    assert Size(verb) == 1 + SizeAll(verbPremods) + Size(after);
    assert Within(acc, verb);
  }

  lemma AppearAfterEmbeds(verbPremods: seq<Phrase>, prepPremods: seq<Phrase>, acc: Phrase)
    ensures var p := Coordinated(None, Plural, [SiblingsClause, AppearAfter(verbPremods, prepPremods, acc)]);
      var q := Coordinated(None, Plural, [SiblingsClause, AppearAfter(verbPremods, prepPremods, Absent)]);
      Within(acc, p) && Size(p) == Size(q) - 1 + Size(acc)
  {
    var appear := AppearAfter(verbPremods, prepPremods, acc);
    AppearAfterSize(verbPremods, prepPremods, acc);
    AppearAfterSize(verbPremods, prepPremods, Absent);
    assert [SiblingsClause, appear][1..] == [appear];
    WithinSingle(acc, appear);
    SizeAllPair(SiblingsClause, appear);
    SizeAllPair(SiblingsClause, AppearAfter(verbPremods, prepPremods, Absent));
  }

  /** `~` and `+` share the siblings clause and differ only in the adjacency word: "eventually"
      before the verb for `~`, "right" before the preposition for `+`. */
  lemma SiblingCombinatorsDiffer(acc: Phrase)
    ensures Combine(Tilde, acc).coords[0] == Combine(Plus, acc).coords[0] == SiblingsClause
    ensures Combine(Tilde, acc).coords[1].verb.premods == [Word("eventually")]
    ensures Combine(Tilde, acc).coords[1].verb.comps[0].premods == []
    ensures Combine(Plus, acc).coords[1].verb.premods == []
    ensures Combine(Plus, acc).coords[1].verb.comps[0].premods == [Word("right")]
    ensures Combine(Tilde, acc) ==
      Coordinated(None, Plural, [SiblingsClause, AppearAfter([Word("eventually")], [], acc)])
    ensures Combine(Plus, acc) ==
      Coordinated(None, Plural, [SiblingsClause, AppearAfter([], [Word("right")], acc)])
  {
  }

  /** One pass of the loop body of `explain_xpath` at position index of count children. */
  function Step(explain: Option<SequenceExplainer>, acc: Phrase, child: Node, index: nat, count: nat): Result<Phrase> {
    if IsSequence(child) then
      if explain.None? then Failure(NameError("explain_simple_selector_sequence"))
      else
        var sequencePhrase := explain.value(child, index == count - 1);
        Success(if acc != Absent then AddComplement(sequencePhrase, acc) else sequencePhrase)
    else if IsCombinator(child) then
      var first :- Child(child, 0);
      if first.Rule? then Failure(AttributeError("symbol")) else Success(Combine(first.token, acc))
    else
      Success(acc)
  }

  /** The accumulator after the first k children; the first failure ends the fold. */
  function Fold(explain: Option<SequenceExplainer>, children: seq<Node>, k: nat): Result<Phrase>
    requires k <= |children|
  {
    if k == 0 then Success(Absent)
    else
      var acc :- Fold(explain, children, k - 1);
      Step(explain, acc, children[k - 1], k - 1, |children|)
  }

  lemma {:induction false} FailureSticks(explain: Option<SequenceExplainer>, children: seq<Node>, k: nat, j: nat)
    requires k <= j <= |children| && Fold(explain, children, k).Failure?
    ensures Fold(explain, children, j) == Fold(explain, children, k)
  {
    if j > k {
      FailureSticks(explain, children, k, j - 1);
    }
  }

  /** `explain_xpath`, over the selector's children. */
  method ExplainXPath(explain: Option<SequenceExplainer>, children: seq<Node>) returns (r: Result<Phrase>)
    ensures r == Fold(explain, children, |children|)
  {
    var phrase := Absent;
    for index := 0 to |children|
      invariant Fold(explain, children, index) == Success(phrase)
    {
      var child := children[index];
      if IsSequence(child) {
        if explain.None? {
          FailureSticks(explain, children, index + 1, |children|);
          return Failure(NameError("explain_simple_selector_sequence"));
        }
        var focus := index == |children| - 1;
        var sequencePhrase := explain.value(child, focus);
        if phrase != Absent {
          sequencePhrase := AddComplement(sequencePhrase, phrase);
        }
        phrase := sequencePhrase;
      } else if IsCombinator(child) {
        if |child.children| == 0 {
          FailureSticks(explain, children, index + 1, |children|);
          return Failure(MissingChild(0));
        }
        var first := child.children[0];
        if first.Rule? {
          FailureSticks(explain, children, index + 1, |children|);
          return Failure(AttributeError("symbol"));
        }
        var symbol := first.token;
        if symbol == Space {
          phrase := FromPhrase(phrase);
        } else if symbol == Greater {
          phrase := ChildrenOfPhrase(phrase);
        } else if symbol == Tilde {
          phrase := EventuallyAfterPhrase(phrase);
        } else if symbol == Plus {
          phrase := RightAfterPhrase(phrase);
        }
      }
    }
    r := Success(phrase);
  }

  /** Each step keeps the phrase built so far inside the new one. */
  lemma StepEmbeds(explain: Option<SequenceExplainer>, acc: Phrase, child: Node, index: nat, count: nat)
    requires acc != Absent && Step(explain, acc, child, index, count).Success?
    ensures Within(acc, Step(explain, acc, child, index, count).value)
  {
    if IsSequence(child) {
      AddComplementEmbedsOnce(explain.value(child, index == count - 1), acc);
    } else if IsCombinator(child) {
      CombineEmbedsOnce(child.children[0].token, acc);
    }
  }

  /** The fold yields one nested phrase: every non-empty intermediate accumulator lies
      inside every later one, so nothing built earlier is dropped. */
  lemma {:induction false} FoldNests(explain: Option<SequenceExplainer>, children: seq<Node>, j: nat, k: nat)
    requires j <= k <= |children| && Fold(explain, children, k).Success?
    ensures Fold(explain, children, j).Success?
    ensures Fold(explain, children, j).value != Absent ==>
      Within(Fold(explain, children, j).value, Fold(explain, children, k).value)
  {
    if j < k {
      FoldNests(explain, children, j, k - 1);
      var before := Fold(explain, children, k - 1).value;
      if Fold(explain, children, j).value != Absent {
        AbsentOnlyAtStart(explain, children, j, k - 1);
        StepEmbeds(explain, before, children[k - 1], k - 1, |children|);
        WithinTransitive(Fold(explain, children, j).value, before, Fold(explain, children, k).value);
      }
    }
  }

  /** Once the accumulator holds a phrase it never goes back to None. */
  lemma {:induction false} AbsentOnlyAtStart(explain: Option<SequenceExplainer>, children: seq<Node>, j: nat, k: nat)
    requires j <= k <= |children| && Fold(explain, children, k).Success?
    requires Fold(explain, children, j).Success? && Fold(explain, children, j).value != Absent
    ensures Fold(explain, children, k).value != Absent
  {
    if j < k {
      AbsentOnlyAtStart(explain, children, j, k - 1);
      var before := Fold(explain, children, k - 1).value;
      var child := children[k - 1];
      if IsCombinator(child) {
        match child.children[0].token
        case Space =>
        case Greater =>
        case Tilde =>
        case Plus =>
        case _ =>
      }
    }
  }

  lemma {:induction false} FocusOnlyForLastUpTo(f: SequenceExplainer, g: SequenceExplainer, children: seq<Node>, k: nat)
    requires k <= |children|
    requires forall n: Node :: f(n, false) == g(n, false)
    requires |children| > 0 ==> f(children[|children| - 1], true) == g(children[|children| - 1], true)
    ensures Fold(Some(f), children, k) == Fold(Some(g), children, k)
  {
    if k > 0 {
      FocusOnlyForLastUpTo(f, g, children, k - 1);
    }
  }

  /** Focus is given to the last child only: the sequence explainer's answer for
      focus = true matters for no other child. */
  lemma FocusOnlyForLast(f: SequenceExplainer, g: SequenceExplainer, children: seq<Node>)
    requires forall n: Node :: f(n, false) == g(n, false)
    requires |children| > 0 ==> f(children[|children| - 1], true) == g(children[|children| - 1], true)
    ensures Fold(Some(f), children, |children|) == Fold(Some(g), children, |children|)
  {
    FocusOnlyForLastUpTo(f, g, children, |children|);
  }

  lemma {:induction false} FoldOutcomeUpTo(explain: Option<SequenceExplainer>, children: seq<Node>, k: nat)
    requires k <= |children|
    requires forall i :: 0 <= i < |children| ==> CombinatorWellFormed(children[i])
    ensures Fold(explain, children, k).Failure? <==>
      explain.None? && exists i :: 0 <= i < k && IsSequence(children[i])
  {
    if k > 0 {
      FoldOutcomeUpTo(explain, children, k - 1);
      if Fold(explain, children, k - 1).Failure? {
        FailureSticks(explain, children, k - 1, k);
      }
    }
  }

  /** With well-formed combinators the fold fails exactly when the sequence explainer is
      the unbound name and some child is a sequence: as written, every selector that has
      a sequence raises NameError. */
  lemma FoldOutcome(explain: Option<SequenceExplainer>, children: seq<Node>)
    requires forall i :: 0 <= i < |children| ==> CombinatorWellFormed(children[i])
    ensures Fold(explain, children, |children|).Failure? <==>
      explain.None? && exists i :: 0 <= i < |children| && IsSequence(children[i])
  {
    FoldOutcomeUpTo(explain, children, |children|);
  }

  /** A sequence child explained with focus exactly when it is the last child: its phrase
      becomes the new accumulator, with the accumulator so far as its last complement
      when there is one, and unchanged when there is none. A failure so far stays. */
  lemma FoldSequenceStep(f: SequenceExplainer, children: seq<Node>, k: nat)
    requires 0 < k <= |children| && IsSequence(children[k - 1])
    ensures Fold(Some(f), children, k - 1).Failure? ==> Fold(Some(f), children, k) == Fold(Some(f), children, k - 1)
    ensures Fold(Some(f), children, k - 1).Success? ==>
      var acc := Fold(Some(f), children, k - 1).value;
      var s := f(children[k - 1], k == |children|);
      Fold(Some(f), children, k).Success? &&
      var p := Fold(Some(f), children, k).value;
      p.NounPhrase? && p.head == s.head && p.number == s.number && p.premods == s.premods && p.mods == s.mods &&
      (acc != Absent ==> p.comps == s.comps + [acc]) &&
      (acc == Absent ==> p == s)
  {
  }

  /** A well-formed combinator child wraps the accumulator in its token's shape; any
      child that is neither a sequence nor a combinator leaves the accumulator alone. */
  lemma FoldOtherStep(explain: Option<SequenceExplainer>, children: seq<Node>, k: nat)
    requires 0 < k <= |children| && !IsSequence(children[k - 1])
    ensures Fold(explain, children, k - 1).Success? && IsCombinator(children[k - 1]) && CombinatorWellFormed(children[k - 1])
      ==> Fold(explain, children, k) == Success(Combine(children[k - 1].children[0].token, Fold(explain, children, k - 1).value))
    ensures !IsCombinator(children[k - 1]) ==> Fold(explain, children, k) == Fold(explain, children, k - 1)
  {
  }

  /** "div p": the later sequence is the head, in focus, and the earlier one, out of focus,
      is its "from" complement. */
  lemma DescendantChainOrder(f: SequenceExplainer, first: Node, space: Node, second: Node)
    requires IsSequence(first) && IsSequence(second)
    requires space == Rule(Combinator, [Terminal(" ", Space)])
    ensures Fold(Some(f), [first, space, second], 3) == Success(AddComplement(f(second, true), FromPhrase(f(first, false))))
  {
    var children := [first, space, second];
    assert Fold(Some(f), children, 1) == Success(f(first, false));
    assert Fold(Some(f), children, 2) == Success(FromPhrase(f(first, false)));
  }

  /** "div > p": the later sequence's complement is the clause "are children of" the earlier. */
  lemma ChildChainOrder(f: SequenceExplainer, first: Node, greater: Node, second: Node)
    requires IsSequence(first) && IsSequence(second)
    requires greater == Rule(Combinator, [Terminal(">", Greater)])
    ensures Fold(Some(f), [first, greater, second], 3) == Success(AddComplement(f(second, true), ChildrenOfPhrase(f(first, false))))
  {
    var children := [first, greater, second];
    assert Fold(Some(f), children, 1) == Success(f(first, false));
    assert Fold(Some(f), children, 2) == Success(ChildrenOfPhrase(f(first, false)));
  }
}
