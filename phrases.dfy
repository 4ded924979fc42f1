/** The phrase-structure values the explainer builds with the SimpleNLG factory, as
    immutable values. The explainer creates a phrase and then sets its features and adds
    its parts one call at a time; every builder here returns the finished value. */
module Phrases {
  import opened Failures

  datatype Number = Singular | Plural

  datatype Phrase =
    | Absent                                  // Python None handed on as a phrase
    | Word(text: string)                      // a bare string used as a premodifier or head
    | Adjective(word: string)                 // createAdjectivePhrase(word)
    | NounPhrase(head: Phrase, number: Number, premods: seq<Phrase>, mods: seq<Phrase>, comps: seq<Phrase>)
    | VerbPhrase(word: string, premods: seq<Phrase>, comps: seq<Phrase>)
    | PrepPhrase(prep: string, premods: seq<Phrase>, comps: seq<Phrase>)
    | Clause(number: Number, verb: Phrase, target: Phrase)
    | Coordinated(conj: Option<string>, number: Number, coords: seq<Phrase>)

  /** A noun phrase: what `createNounPhrase` returns. */
  type Noun = p: Phrase | p.NounPhrase? witness NounPhrase(Absent, Singular, [], [], [])

  /** `addComplement(c)` on a noun phrase: c becomes its last complement, the rest is kept. */
  function AddComplement(p: Noun, c: Phrase): (r: Noun)
    ensures r.head == p.head && r.number == p.number && r.premods == p.premods && r.mods == p.mods
    ensures |r.comps| == |p.comps| + 1 && r.comps[..|p.comps|] == p.comps && r.comps[|p.comps|] == c
  {
    NounPhrase(p.head, p.number, p.premods, p.mods, p.comps + [c])
  }

  /** Number of phrase nodes in a phrase. */
  function Size(p: Phrase): nat {
    match p
    case Absent => 1
    case Word(_) => 1
    case Adjective(_) => 1
    case NounPhrase(h, _, pre, mods, comps) => 1 + Size(h) + SizeAll(pre) + SizeAll(mods) + SizeAll(comps)
    case VerbPhrase(_, pre, comps) => 1 + SizeAll(pre) + SizeAll(comps)
    case PrepPhrase(_, pre, comps) => 1 + SizeAll(pre) + SizeAll(comps)
    case Clause(_, v, o) => 1 + Size(v) + Size(o)
    case Coordinated(_, _, cs) => 1 + SizeAll(cs)
  }

  function SizeAll(ps: seq<Phrase>): nat {
    if ps == [] then 0 else Size(ps[0]) + SizeAll(ps[1..])
  }

  /** x occurs somewhere inside p (or is p). */
  ghost predicate Within(x: Phrase, p: Phrase) {
    x == p ||
    match p
    case Absent => false
    case Word(_) => false
    case Adjective(_) => false
    case NounPhrase(h, _, pre, mods, comps) => Within(x, h) || WithinSome(x, pre) || WithinSome(x, mods) || WithinSome(x, comps)
    case VerbPhrase(_, pre, comps) => WithinSome(x, pre) || WithinSome(x, comps)
    case PrepPhrase(_, pre, comps) => WithinSome(x, pre) || WithinSome(x, comps)
    case Clause(_, v, o) => Within(x, v) || Within(x, o)
    case Coordinated(_, _, cs) => WithinSome(x, cs)
  }

  ghost predicate WithinSome(x: Phrase, ps: seq<Phrase>) {
    ps != [] && (Within(x, ps[0]) || WithinSome(x, ps[1..]))
  }

  /** Containment is transitive: a phrase nested in a part of p is nested in p. */
  lemma {:induction false} WithinTransitive(a: Phrase, b: Phrase, c: Phrase)
    requires Within(a, b) && Within(b, c)
    ensures Within(a, c)
  {
    if b != c {
      match c
      case NounPhrase(h, _, pre, mods, comps) =>
        if Within(b, h) { WithinTransitive(a, b, h); }
        else if WithinSome(b, pre) { WithinSomeTransitive(a, b, pre); }
        else if WithinSome(b, mods) { WithinSomeTransitive(a, b, mods); }
        else { WithinSomeTransitive(a, b, comps); }
      case VerbPhrase(_, pre, comps) =>
        if WithinSome(b, pre) { WithinSomeTransitive(a, b, pre); }
        else { WithinSomeTransitive(a, b, comps); }
      case PrepPhrase(_, pre, comps) =>
        if WithinSome(b, pre) { WithinSomeTransitive(a, b, pre); }
        else { WithinSomeTransitive(a, b, comps); }
      case Clause(_, v, o) =>
        if Within(b, v) { WithinTransitive(a, b, v); }
        else { WithinTransitive(a, b, o); }
      case Coordinated(_, _, cs) =>
        WithinSomeTransitive(a, b, cs);
    }
  }

  lemma {:induction false} WithinSomeTransitive(a: Phrase, b: Phrase, cs: seq<Phrase>)
    requires Within(a, b) && WithinSome(b, cs)
    ensures WithinSome(a, cs)
  {
    if Within(b, cs[0]) {
      WithinTransitive(a, b, cs[0]);
    } else {
      WithinSomeTransitive(a, b, cs[1..]);
    }
  }

  lemma {:induction false} SizeAllAppend(ps: seq<Phrase>, c: Phrase)
    ensures SizeAll(ps + [c]) == SizeAll(ps) + Size(c)
  {
    if ps != [] {
      assert (ps + [c])[1..] == ps[1..] + [c];
      SizeAllAppend(ps[1..], c);
    }
  }

  lemma {:induction false} WithinSomeAppend(ps: seq<Phrase>, c: Phrase)
    ensures WithinSome(c, ps + [c])
  {
    if ps == [] {
      assert (ps + [c])[0] == c;
    } else {
      assert (ps + [c])[1..] == ps[1..] + [c];
      WithinSomeAppend(ps[1..], c);
    }
  }

  /** The added complement is nested in the result exactly once: the size grows by its size. */
  lemma AddComplementEmbedsOnce(p: Noun, c: Phrase)
    ensures Within(c, AddComplement(p, c))
    ensures Size(AddComplement(p, c)) == Size(p) + Size(c)
  {
    SizeAllAppend(p.comps, c);
    WithinSomeAppend(p.comps, c);
  }
}
