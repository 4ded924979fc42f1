/** The entry points of tutorons/xpath/explain.py: `explain_main`, the listener's
    `exitMain`, and `explain`, which turns the stored result into one sentence per xpath
    and turns any exception raised on the way into None for the whole call. */
module XPathExplain {
  import opened Failures
  import opened ParseTree
  import opened Phrases
  import opened XPathWalk
  import opened XPathExpr

  /** `realiser.realise` followed by `str`: SimpleNLG's realiser, left uninterpreted. */
  type Realiser = Phrase -> string

  predicate IsMain(n: Node) {
    n.Rule? && n.variant == Main
  }

  /** `explain_main`: the explanation of the main rule's first child. `getChild(0)` on a
      childless node gives None, on which the skip's `getChildCount()` raises. */
  function ExplainMain(main: Node): (r: Result<Phrase>)
    ensures r.Success? <==> ChildCount(main) >= 1 && ExplainExpr(main.children[0]).Success?
    ensures r.Success? ==> r == ExplainExpr(main.children[0])
    ensures ChildCount(main) == 0 ==> r == Failure(AttributeError("getChildCount"))
  {
    var expr := GetChild(main, 0);
    if expr.None? then Failure(AttributeError("getChildCount")) else ExplainExpr(expr.value)
  }

  /** `explain_main` over the dispatcher as written: it never returns a phrase. */
  function ExplainMainAsWritten(main: Node): (r: Result<Phrase>)
    ensures r.Failure?
    ensures ChildCount(main) >= 1 ==> r == ExplainExprAsWritten(main.children[0])
  {
    var expr := GetChild(main, 0);
    if expr.None? then Failure(AttributeError("getChildCount")) else ExplainExprAsWritten(expr.value)
  }

  /** The sentence `explain` makes of one xpath and its realised phrase. */
  function Sentence(xpath: string, realised: string): string {
    "The '" + xpath + "'xpath chooses " + realised + "."
  }

  /** Reads the realised phrase back out of the sentence for a given xpath. */
  function SentenceRealised(xpath: string, sentence: string): Option<string> {
    var prefix := "The '" + xpath + "'xpath chooses ";
    if |sentence| > |prefix| && sentence[..|prefix|] == prefix && sentence[|sentence| - 1] == '.'
    then Some(sentence[|prefix|..|sentence| - 1])
    else None
  }

  /** The sentence keeps the xpath and the realised phrase apart: the phrase is read back
      unchanged. */
  lemma SentenceReadBack(xpath: string, realised: string)
    ensures SentenceRealised(xpath, Sentence(xpath, realised)) == Some(realised)
  {
    var prefix := "The '" + xpath + "'xpath chooses ";
    var s := Sentence(xpath, realised);
    assert s == prefix + realised + ".";
    assert s[..|prefix|] == prefix;
    assert s[|prefix|..|s| - 1] == realised;
  }

  /** The try block of `explain`, with `exitMain` storing `{getText(): phrase}`, the
      mapping the loop over `.items()` expects. A tree whose root is not the main rule
      never reaches `exitMain`, so `explainer.result` is missing. */
  function Explanations(root: Node, realise: Realiser): (r: Result<map<string, string>>)
    ensures r.Success? <==> IsMain(root) && ExplainMain(root).Success?
    ensures r.Success? ==>
      r.value.Keys == {Text(root)} &&
      SentenceRealised(Text(root), r.value[Text(root)]) == Some(realise(ExplainMain(root).value))
  {
    if !IsMain(root) then Failure(AttributeError("result"))
    else
      var phrase :- ExplainMain(root);
      var xpath := Text(root);
      SentenceReadBack(xpath, realise(phrase));
      Success(map[xpath := Sentence(xpath, realise(phrase))])
  }

  /** The try block as written: `exitMain` stores the phrase itself, and a phrase has no
      `.items()`; explaining the main rule already raised before that. */
  function ExplanationsAsWritten(root: Node, realise: Realiser): (r: Result<map<string, string>>)
    ensures r.Failure?
    ensures IsMain(root) ==> r == Failure(ExplainMainAsWritten(root).error)
  {
    if !IsMain(root) then Failure(AttributeError("result"))
    else
      match ExplainMainAsWritten(root)
      case Failure(e) => Failure(e)
      case Success(_) => Failure(AttributeError("items"))
  }

  /** The try block with `explain_expr` corrected but `exitMain` still storing the bare
      phrase: a phrase has no `.items()`, so every tree the corrected dispatcher explains
      still fails there. */
  function ExplanationsStoringPhrase(root: Node, realise: Realiser): (r: Result<map<string, string>>)
    ensures r.Failure?
    ensures IsMain(root) && ExplainMain(root).Success? ==> r == Failure(AttributeError("items"))
  {
    if !IsMain(root) then Failure(AttributeError("result"))
    else
      match ExplainMain(root)
      case Failure(e) => Failure(e)
      case Success(_) => Failure(AttributeError("items"))
  }

  /** The main rule of `//p`: an abbreviated descendant step over the name test `p`. */
  function DescendantP(): Node {
    Rule(Main, [Rule(OtherRule("absoluteLocationPathNoroot"),
      [Terminal("//", OtherToken("ABRPATH")), Terminal("p", OtherToken("NCName"))])])
  }

  /** For `//p` the corrected dispatcher gives a phrase, storing it bare still raises on
      `.items()`, and storing the mapping gives one sentence. */
  lemma ItemsSlipExample(realise: Realiser)
    ensures ExplainMain(DescendantP()) == Success(Absent)
    ensures ExplanationsStoringPhrase(DescendantP(), realise) == Failure(AttributeError("items"))
    ensures Explain(Some(DescendantP()), realise).Some?
  {
    var path := DescendantP().children[0];
    assert Branches(path);
    assert Interesting(path) == path;
  }

  /** The `except Exception` clause: whatever was raised, the answer is None. */
  function Caught<T>(r: Result<T>): (o: Option<T>)
    ensures o.Some? <==> r.Success?
    ensures o.Some? ==> o.value == r.value
  {
    if r.Success? then Some(r.value) else None
  }

  /** `explain(xpath)`, given what the parser produced: None when it raised. One failing
      part of the tree fails the whole call; there is no per-xpath tolerance. */
  function Explain(parsed: Option<Node>, realise: Realiser): (r: Option<map<string, string>>)
    ensures r.None? <==>
      parsed.None? || !IsMain(parsed.value) || ChildCount(parsed.value) == 0 ||
      ExplainExpr(parsed.value.children[0]).Failure?
    ensures r.Some? ==>
      var xpath := Text(parsed.value);
      r.value.Keys == {xpath} &&
      SentenceRealised(xpath, r.value[xpath]) == Some(realise(ExplainExpr(parsed.value.children[0]).value))
  {
    if parsed.None? then None else Caught(Explanations(parsed.value, realise))
  }

  /** `explain(xpath)` as written returns None for every input. */
  function ExplainAsWritten(parsed: Option<Node>, realise: Realiser): (r: Option<map<string, string>>)
    ensures r == None
  {
    if parsed.None? then None else Caught(ExplanationsAsWritten(parsed.value, realise))
  }

  /** A main rule over an expression the parser can produce is always explained. */
  lemma WellFormedMainExplained(root: Node, realise: Realiser)
    requires IsMain(root) && ChildCount(root) >= 1 && WellFormed(root.children[0])
    ensures Explain(Some(root), realise).Some?
  {
    WellFormedExplains(root.children[0]);
  }
}
