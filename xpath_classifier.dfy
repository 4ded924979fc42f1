/** The node classifier of tutorons/xpath/explain.py: the closed table of axis names
    (`explain_axis_specifier`) and the table of friendly tag names (`explain_node_test`). */
module XPathClassifier {
  import opened Failures
  import opened ParseTree
  import opened Phrases

  /** AXIS_NAMES, verbatim, including the entries still marked as unfinished. */
  const AxisNames: map<string, string> := map[
    "ancestor" := "ancestors of",
    "ancestor-or-self" := " [self_name] and ancestors of",
    "attribute" := "attributes of",
    "@" := "attributes of",
    "child" := "children of",
    "descendant" := "descendants of",
    "descendant-or-self" := "[self_name] and descendants of",
    "following" := "nodes after",
    "following-sibling" := "siblings that appear before",
    "namespace" := "nodes in the namespace of",
    "parent" := "the parent of",
    "preceding" := "nodes before",
    "preceding-sibling" := "siblings that appear before",
    "self" := "[self_name]"
  ]

  /** TYPE_NAMES, verbatim: note that "table" maps to itself. */
  const TypeNames: map<string, string> := map[
    "p" := "paragraph",
    "div" := "container",
    "strong" := "bolded text segment",
    "a" := "link",
    "img" := "image",
    "pre" := "preformatted text block",
    "table" := "table",
    "tr" := "row",
    "td" := "cell"
  ]

  /** `explain_axis_specifier`: the premodifier a step's axis contributes. No axis means
      the child axis; an axis keyword outside the table raises KeyError. */
  function ExplainAxisSpecifier(axis: Node): (r: Result<string>)
    ensures r.Success? <==> ChildCount(axis) == 0 || Text(axis.children[0]) in AxisNames
    ensures r.Success? ==> r.value in AxisNames.Values
    ensures r.Failure? ==> r.error == KeyError(Text(axis.children[0]))
    ensures ChildCount(axis) == 0 ==> r == Success("children of")
    ensures ChildCount(axis) > 0 && Text(axis.children[0]) in AxisNames ==>
      r == Success(AxisNames[Text(axis.children[0])])
  {
    if ChildCount(axis) == 0 then
      assert AxisNames["child"] == "children of";
      Success("children of")
    else
      var keyword := Text(axis.children[0]);
      if keyword in AxisNames then Success(AxisNames[keyword]) else Failure(KeyError(keyword))
  }

  /** Leaving the axis out reads exactly like writing `child::`. */
  lemma AxisDefaultIsChild(v: Variant, w: Variant, t: Token)
    ensures ExplainAxisSpecifier(Rule(v, [])) == ExplainAxisSpecifier(Rule(w, [Terminal("child", t)]))
  {
  }

  /** The two pairs of keywords the table reads alike. */
  predicate AxisTwins(k1: string, k2: string) {
    (k1 == "@" && k2 == "attribute") || (k1 == "attribute" && k2 == "@") ||
    (k1 == "following-sibling" && k2 == "preceding-sibling") ||
    (k1 == "preceding-sibling" && k2 == "following-sibling")
  }

  /** The table gives two distinct keywords the same phrase only for `@`/`attribute`
      and for the two sibling axes (both read "siblings that appear before"). */
  lemma AxisNamesCollisions(k1: string, k2: string)
    requires k1 in AxisNames && k2 in AxisNames && k1 != k2
    ensures AxisNames[k1] == AxisNames[k2] <==> AxisTwins(k1, k2)
  {
    AxisKeywords(k1);
    AxisKeywords(k2);
  }

  /** The fourteen keywords of the table. */
  lemma AxisKeywords(k: string)
    requires k in AxisNames
    ensures k == "ancestor" || k == "ancestor-or-self" || k == "attribute" || k == "@" || k == "child" ||
      k == "descendant" || k == "descendant-or-self" || k == "following" || k == "following-sibling" ||
      k == "namespace" || k == "parent" || k == "preceding" || k == "preceding-sibling" || k == "self"
  {
  }

  /** `_lookup_type_name`: the friendly noun, or the tag itself. */
  function LookupTypeName(tag: string): string {
    if tag in TypeNames then TypeNames[tag] else tag
  }

  /** `explain_node_test`: a plural noun phrase. A node-type token keeps the head "node"
      and becomes an adjective ("node" itself reads "all "); a named test gets its friendly
      noun as head when the lookup changes the name, and otherwise keeps the head "node"
      with the quoted tag as adjective. */
  function ExplainNodeTest(test: Node): (r: Result<Noun>)
    ensures r.Success? <==> ChildCount(test) >= 1
    ensures r.Failure? ==> r.error == MissingChild(0)
    ensures r.Success? ==> r.value.number == Plural && r.value.mods == [] && r.value.comps == []
    ensures r.Success? ==> |r.value.premods| <= 1 && r.value.head.Word?
  {
    var first :- Child(test, 0);
    if first.Terminal? then
      var nodeType := if first.text == "node" then "all " else first.text;
      Success(NounPhrase(Word("node"), Plural, [Adjective(nodeType)], [], []))
    else
      var tag := Text(first);
      var name := LookupTypeName(tag);
      if name != tag then Success(NounPhrase(Word(name), Plural, [], [], []))
      else Success(NounPhrase(Word("node"), Plural, [Adjective("'" + LookupTypeName(tag) + "'")], [], []))
  }

  /** A node-type test (`node()`, `text()`, ...) always explains as plural "node"s with
      the type as adjective, "node" being rendered "all ". */
  lemma NodeTypeTest(test: Node)
    requires ChildCount(test) >= 1 && test.children[0].Terminal?
    ensures ExplainNodeTest(test).Success?
    ensures var np := ExplainNodeTest(test).value;
      np.head == Word("node") && np.number == Plural &&
      np.premods == [Adjective(if test.children[0].text == "node" then "all " else test.children[0].text)]
  {
  }

  /** Reverse of the friendly names that differ from their tag. */
  const FriendlyTags: map<string, string> := map[
    "paragraph" := "p",
    "container" := "div",
    "bolded text segment" := "strong",
    "link" := "a",
    "image" := "img",
    "preformatted text block" := "pre",
    "row" := "tr",
    "cell" := "td"
  ]

  /** Reads the tag back from the phrase a named node test produced. */
  function TagOf(np: Phrase): Option<string> {
    if np.NounPhrase? && np.head.Word? && np.head.text in FriendlyTags then Some(FriendlyTags[np.head.text])
    else if np.NounPhrase? && |np.premods| == 1 && np.premods[0].Adjective? && |np.premods[0].word| >= 2 then
      var q := np.premods[0].word;
      Some(q[1..|q| - 1])
    else None
  }

  lemma FriendlyNamesInvert(tag: string)
    requires tag in TypeNames && TypeNames[tag] != tag
    ensures TypeNames[tag] in FriendlyTags && FriendlyTags[TypeNames[tag]] == tag
  {
  }

  /** A named node test never loses its tag: the tag can be read back from the phrase,
      whether it went through the friendly table or the quoted fallback. */
  lemma {:induction false} NamedTestKeepsTag(test: Node)
    requires ChildCount(test) >= 1 && test.children[0].Rule?
    ensures ExplainNodeTest(test).Success?
    ensures TagOf(ExplainNodeTest(test).value) == Some(Text(test.children[0]))
  {
    var tag := Text(test.children[0]);
    if LookupTypeName(tag) != tag {
      FriendlyNamesInvert(tag);
    } else {
      var q := "'" + tag + "'";
      assert q[1..|q| - 1] == tag;
      assert "node" !in FriendlyTags;
    }
  }

  /** A named test gets the friendly noun as its head and no premodifier when the lookup
      changes the tag, and otherwise keeps the head "node" with the quoted tag. */
  lemma NamedTestPhrase(test: Node)
    requires ChildCount(test) >= 1 && test.children[0].Rule?
    ensures var tag := Text(test.children[0]);
      ExplainNodeTest(test) ==
        if LookupTypeName(tag) != tag then Success(NounPhrase(Word(TypeNames[tag]), Plural, [], [], []))
        else Success(NounPhrase(Word("node"), Plural, [Adjective("'" + tag + "'")], [], []))
  {
  }

  /** "table" is in the table but maps to itself, so it takes the fallback branch. */
  lemma TableTagFallsBack(test: Node)
    requires ChildCount(test) >= 1 && test.children[0].Rule? && Text(test.children[0]) == "table"
    ensures ExplainNodeTest(test) == Success(NounPhrase(Word("node"), Plural, [Adjective("'table'")], [], []))
  {
    assert "'" + "table" + "'" == "'table'";
  }
}
