/** The set-of-positions matcher of `FindExpression::matches`. */
module FindMatcher {
  import opened Text
  import opened FindLanguage

  /** `reached` is closed under one more word of `child`. */
  ghost predicate ClosedUnder(child: FindNode, value: string, reached: set<nat>) {
    forall p :: p in reached && p <= |value| ==> Ends(child, value, p) <= reached
  }

  ghost predicate ReachedFrom(child: FindNode, value: string, initial: set<nat>, q: nat)
    requires q <= |value|
  {
    exists p: nat :: p in initial && p <= q && InStar(child, value[p..q])
  }

  /** The positions reachable from `initial` by any number of words of `child`. */
  ghost function StarEnds(child: FindNode, value: string, initial: set<nat>): (ends: set<nat>)
    ensures forall q :: q in ends ==> q <= |value|
  {
    set q: nat | 0 <= q <= |value| && ReachedFrom(child, value, initial, q)
  }

  /** A set that is closed under `child` contains every end of a repetition that starts in it. */
  lemma {:induction false} ClosedContainsStar(child: FindNode, value: string, reached: set<nat>,
                                              p: nat, q: nat, words: seq<string>)
    requires p in reached && p <= q <= |value|
    requires ClosedUnder(child, value, reached)
    requires Flatten(words) == value[p..q] && EachIn(child, words)
    ensures q in reached
    decreases |words|
  {
    if words != [] {
      var m := p + |words[0]|;
      assert value[p..m] == value[p..q][..|words[0]|] == words[0];
      assert value[m..q] == value[p..q][|words[0]|..] == Flatten(words[1..]);
      assert m in Ends(child, value, p);
      assert EachIn(child, words[1..]);
      ClosedContainsStar(child, value, reached, m, q, words[1..]);
    }
  }

  lemma StarEndsStart(child: FindNode, value: string, initial: set<nat>)
    requires forall p :: p in initial ==> p <= |value|
    ensures initial <= StarEnds(child, value, initial)
  {
    forall p | p in initial ensures p in StarEnds(child, value, initial) {
      StarOfNone(child);
      assert value[p..p] == "";
    }
  }

  lemma StarEndsStep(child: FindNode, value: string, initial: set<nat>, r: nat)
    requires r in StarEnds(child, value, initial)
    ensures Ends(child, value, r) <= StarEnds(child, value, initial)
  {
    forall q | q in Ends(child, value, r) ensures q in StarEnds(child, value, initial) {
      var p: nat :| p in initial && p <= r && InStar(child, value[p..r]);
      StarSnoc(child, value[p..r], value[r..q]);
      assert value[p..r] + value[r..q] == value[p..q];
    }
  }

  /** The positions of a repetition are the least closed set that contains the start. */
  lemma StarEndsLeast(child: FindNode, value: string, initial: set<nat>, other: set<nat>)
    requires forall p :: p in initial ==> p <= |value|
    requires initial <= other && ClosedUnder(child, value, other)
    ensures initial <= StarEnds(child, value, initial) <= other
    ensures ClosedUnder(child, value, StarEnds(child, value, initial))
  {
    StarEndsStart(child, value, initial);
    forall q | q in StarEnds(child, value, initial) ensures q in other {
      var p: nat :| p in initial && p <= q && InStar(child, value[p..q]);
      var words: seq<string> :| Flatten(words) == value[p..q] && EachIn(child, words);
      ClosedContainsStar(child, value, other, p, q, words);
    }
    forall r | r in StarEnds(child, value, initial)
      ensures Ends(child, value, r) <= StarEnds(child, value, initial)
    {
      StarEndsStep(child, value, initial, r);
    }
  }

  /** One word of `child` on from every frontier position. */
  ghost function Round(child: FindNode, value: string, frontier: set<nat>): set<nat>
    requires forall p :: p in frontier ==> p <= |value|
  {
    set p, q | p in frontier && q in Ends(child, value, p) :: q
  }

  /** One round of the worklist. */
  method Advance(child: FindNode, value: string, frontier: set<nat>, before: set<nat>)
    returns (next: set<nat>, reached: set<nat>)
    requires forall p :: p in frontier ==> p <= |value|
    ensures reached == before + next && next !! before
    ensures reached == before + Round(child, value, frontier)
    decreases child, 1
  {
    next, reached := {}, before;
    var pending := frontier;
    while pending != {}
      invariant pending <= frontier
      invariant reached == before + next && next !! before
      invariant reached == before + Round(child, value, frontier - pending)
    {
      var position :| position in pending;
      var candidates := MatchNode(child, value, position);
      next := next + (candidates - reached);
      reached := reached + candidates;
      assert frontier - (pending - {position}) == (frontier - pending) + {position};
      pending := pending - {position};
    }
    assert frontier - pending == frontier;
  }

  /** `repeat_closure`: a worklist over positions. */
  method RepeatClosure(child: FindNode, value: string, initial: set<nat>) returns (reached: set<nat>)
    requires forall p :: p in initial ==> p <= |value|
    ensures reached == StarEnds(child, value, initial)
    decreases child, 2
  {
    reached := initial;
    var frontier := initial;
    ghost var target := StarEnds(child, value, initial);
    SearchStarts(child, value, initial);
    while frontier != {}
      invariant Searching(child, value, initial, reached, frontier)
      decreases target - reached, frontier
    {
      ghost var before := reached;
      var next;
      next, reached := Advance(child, value, frontier, reached);
      RoundKeeps(child, value, initial, before, frontier, reached, next);
      frontier := next;
    }
    SearchEnds(child, value, initial, reached);
  }

  /** The worklist invariant. */
  ghost predicate Searching(child: FindNode, value: string, initial: set<nat>, reached: set<nat>, frontier: set<nat>) {
    && initial <= reached <= StarEnds(child, value, initial)
    && frontier <= reached
    && ClosedBut(child, value, reached, frontier)
  }

  lemma SearchStarts(child: FindNode, value: string, initial: set<nat>)
    requires forall p :: p in initial ==> p <= |value|
    ensures Searching(child, value, initial, initial, initial)
  {
    StarEndsStart(child, value, initial);
  }

  lemma SearchEnds(child: FindNode, value: string, initial: set<nat>, reached: set<nat>)
    requires forall p :: p in initial ==> p <= |value|
    requires Searching(child, value, initial, reached, {})
    ensures reached == StarEnds(child, value, initial)
  {
    StarEndsLeast(child, value, initial, reached);
  }

  lemma RoundKeeps(child: FindNode, value: string, initial: set<nat>, before: set<nat>, frontier: set<nat>,
                   reached: set<nat>, next: set<nat>)
    requires Searching(child, value, initial, before, frontier)
    requires reached == before + next && next !! before
    requires reached == before + Round(child, value, frontier)
    ensures Searching(child, value, initial, reached, next)
    ensures next != {} ==> StarEnds(child, value, initial) - reached < StarEnds(child, value, initial) - before
    ensures next == {} ==> reached == before
  {
    RoundStays(child, value, initial, frontier);
    RoundCloses(child, value, before, frontier, reached, next);
    if next != {} {
      var target := StarEnds(child, value, initial);
      assert next <= target - before;
      assert target - before == (target - reached) + next;
    }
  }

  /** Only the words from `frontier` may still lead out of `reached`. */
  ghost predicate ClosedBut(child: FindNode, value: string, reached: set<nat>, frontier: set<nat>) {
    forall p :: p in reached && p !in frontier && p <= |value| ==> Ends(child, value, p) <= reached
  }

  lemma RoundStays(child: FindNode, value: string, initial: set<nat>, frontier: set<nat>)
    requires frontier <= StarEnds(child, value, initial)
    ensures Round(child, value, frontier) <= StarEnds(child, value, initial)
  {
    forall p | p in frontier ensures Ends(child, value, p) <= StarEnds(child, value, initial) {
      StarEndsStep(child, value, initial, p);
    }
  }

  lemma RoundCloses(child: FindNode, value: string, before: set<nat>, frontier: set<nat>, reached: set<nat>,
                    next: set<nat>)
    requires forall p :: p in before ==> p <= |value|
    requires frontier <= before && ClosedBut(child, value, before, frontier)
    requires reached == before + next
    requires Round(child, value, frontier) <= reached
    ensures ClosedBut(child, value, reached, next)
  {
    forall p | p in reached && p !in next && p <= |value| ensures Ends(child, value, p) <= reached {
      if p !in frontier {
        assert Ends(child, value, p) <= before;
      } else {
        assert Ends(child, value, p) <= Round(child, value, frontier);
      }
    }
  }

  /** `match_node`: exactly the end positions of the words of `n` starting at `p`. */
  method MatchNode(n: FindNode, value: string, p: nat) returns (ends: set<nat>)
    requires p <= |value|
    ensures ends == Ends(n, value, p)
    decreases n, 0
  {
    match n {
      case Empty =>
        ends := {p};
        assert value[p..p] == "";
      case Literal(c) =>
        ends := if p < |value| && Fold(value[p]) == c then {p + 1} else {};
        OneCharacter(n, value, p);
      case AnyCharacter =>
        ends := if p < |value| then {p + 1} else {};
        OneCharacter(n, value, p);
      case CharacterClass(negated, ranges) =>
        ends := if p < |value| && InSomeRange(ranges, Fold(value[p])) != negated then {p + 1} else {};
        OneCharacter(n, value, p);
      case Concatenation(children) =>
        ends := MatchConcatenation(children, value, p);
      case Alternate(children) =>
        ends := MatchAlternate(children, value, p);
        AlternateEndsAll(children, value, p);
      case Repeat(oneOrMore, child) =>
        if !oneOrMore {
          ends := RepeatClosure(child, value, {p});
          StarIsRepeat(child, value, p);
        } else {
          var first := MatchNode(child, value, p);
          ends := RepeatClosure(child, value, first);
          PlusIsRepeat(child, value, p);
        }
    }
  }

  method MatchConcatenation(children: seq<FindNode>, value: string, p: nat) returns (positions: set<nat>)
    requires p <= |value|
    ensures positions == ProductEnds(children, value, p)
    decreases children, 1
  {
    positions := {p};
    ProductOfNone(value, p);
    assert children[..0] == [];
    for i := 0 to |children|
      invariant positions == ProductEnds(children[..i], value, p)
    {
      var child := children[i];
      var next: set<nat> := {};
      var pending := positions;
      while pending != {}
        invariant pending <= positions
        invariant next == set m, q | m in positions - pending && q in Ends(child, value, m) :: q
      {
        var current :| current in pending;
        var matched := MatchNode(child, value, current);
        assert positions - (pending - {current}) == (positions - pending) + {current};
        pending := pending - {current};
        next := next + matched;
      }
      assert positions - pending == positions;
      ProductEndsSnoc(children[..i], child, value, p);
      assert children[..i] + [child] == children[..i + 1];
      positions := next;
      if positions == {} {
        ProductEndsDead(children, i + 1, value, p);
        return;
      }
    }
    assert children[..|children|] == children;
  }

  ghost function AlternateEnds(children: seq<FindNode>, value: string, p: nat): set<nat>
    requires p <= |value|
  {
    set q: nat, k: nat | 0 <= k < |children| && q in Ends(children[k], value, p) :: q
  }

  method MatchAlternate(children: seq<FindNode>, value: string, p: nat) returns (positions: set<nat>)
    requires p <= |value|
    ensures positions == AlternateEnds(children, value, p)
    decreases children, 1
  {
    positions := {};
    for i := 0 to |children|
      invariant positions == AlternateEnds(children[..i], value, p)
    {
      var matched := MatchNode(children[i], value, p);
      assert AlternateEnds(children[..i + 1], value, p) == AlternateEnds(children[..i], value, p) + Ends(children[i], value, p) by {
        assert children[..i + 1] == children[..i] + [children[i]];
        forall q | q in Ends(children[i], value, p) ensures q in AlternateEnds(children[..i + 1], value, p) {
          assert children[..i + 1][i] == children[i];
        }
        forall q | q in AlternateEnds(children[..i], value, p) ensures q in AlternateEnds(children[..i + 1], value, p) {
          var k: nat :| k < i && q in Ends(children[..i][k], value, p);
          assert children[..i + 1][k] == children[..i][k];
        }
      }
      positions := positions + matched;
    }
    assert children[..|children|] == children;
  }

  lemma AlternateEndsAll(children: seq<FindNode>, value: string, p: nat)
    requires p <= |value|
    ensures AlternateEnds(children, value, p) == Ends(Alternate(children), value, p)
  {
    forall q: nat | p <= q <= |value|
      ensures InLanguage(Alternate(children), value[p..q]) <==> q in AlternateEnds(children, value, p)
    {
      if k :| 0 <= k < |children| && InLanguage(children[k], value[p..q]) {
        assert q in Ends(children[k], value, p);
      }
    }
  }

  /** A node that stands for single characters ends only one character on. */
  lemma OneCharacter(n: FindNode, value: string, p: nat)
    requires p <= |value| && (n.Literal? || n.AnyCharacter? || n.CharacterClass?)
    ensures Ends(n, value, p) == if p < |value| && InLanguage(n, [value[p]]) then {p + 1} else {}
  {
    forall q: nat | p <= q <= |value|
      ensures InLanguage(n, value[p..q]) <==> q == p + 1 && InLanguage(n, [value[p]])
    {
      if q == p + 1 {
        assert value[p..q] == [value[p]];
      }
    }
  }

  lemma ProductOfNone(value: string, p: nat)
    requires p <= |value|
    ensures ProductEnds([], value, p) == {p}
  {
    forall q: nat | p <= q <= |value|
      ensures InProduct([], value[p..q]) <==> q == p
    {
      if q == p {
        assert Flatten([]) == value[p..q] && Pairwise([], []);
      }
    }
  }

  lemma ProductSplits(children: seq<FindNode>, last: FindNode, value: string, p: nat, q: nat) returns (m: nat)
    requires p <= |value| && q in ProductEnds(children + [last], value, p)
    ensures m in ProductEnds(children, value, p) && q in Ends(last, value, m)
  {
    var w := value[p..q];
    var k := ProductSnocSplit(children, last, w);
    assert w[..k] == value[p..p + k] && w[k..] == value[p + k..q];
    m := p + k;
  }

  lemma ProductJoins(children: seq<FindNode>, last: FindNode, value: string, p: nat, m: nat, q: nat)
    requires p <= |value| && m in ProductEnds(children, value, p) && q in Ends(last, value, m)
    ensures q in ProductEnds(children + [last], value, p)
  {
    ProductSnocJoin(children, last, value[p..m], value[m..q]);
    assert value[p..m] + value[m..q] == value[p..q];
  }

  lemma ProductEndsSnoc(children: seq<FindNode>, last: FindNode, value: string, p: nat)
    requires p <= |value|
    ensures ProductEnds(children + [last], value, p)
         == set m, q | m in ProductEnds(children, value, p) && q in Ends(last, value, m) :: q
  {
    forall q | q in ProductEnds(children + [last], value, p)
      ensures exists m :: m in ProductEnds(children, value, p) && q in Ends(last, value, m)
    {
      var m := ProductSplits(children, last, value, p, q);
    }
    forall m, q | m in ProductEnds(children, value, p) && q in Ends(last, value, m)
      ensures q in ProductEnds(children + [last], value, p)
    {
      ProductJoins(children, last, value, p, m, q);
    }
  }

  /** Once a prefix of a concatenation matches nowhere, neither does the whole. */
  lemma {:induction false} ProductEndsDead(children: seq<FindNode>, i: nat, value: string, p: nat)
    requires p <= |value| && i <= |children|
    requires ProductEnds(children[..i], value, p) == {}
    ensures ProductEnds(children, value, p) == {}
    decreases |children| - i
  {
    if i == |children| {
      assert children[..i] == children;
    } else {
      ProductEndsSnoc(children[..i], children[i], value, p);
      assert children[..i] + [children[i]] == children[..i + 1];
      ProductEndsDead(children, i + 1, value, p);
    }
  }

  lemma StarIsRepeat(child: FindNode, value: string, p: nat)
    requires p <= |value|
    ensures StarEnds(child, value, {p}) == Ends(Repeat(false, child), value, p)
  {
    forall q: nat | p <= q <= |value|
      ensures InStar(child, value[p..q]) <==> InLanguage(Repeat(false, child), value[p..q])
    {}
  }

  lemma PlusStarts(child: FindNode, value: string, p: nat, q: nat)
    requires p <= |value| && q in Ends(Repeat(true, child), value, p)
    ensures q in StarEnds(child, value, Ends(child, value, p))
  {
    var w := value[p..q];
    var k := PlusUncons(child, w);
    assert w[..k] == value[p..p + k] && w[k..] == value[p + k..q];
    assert p + k in Ends(child, value, p);
  }

  lemma PlusGoesOn(child: FindNode, value: string, p: nat, q: nat)
    requires p <= |value| && q in StarEnds(child, value, Ends(child, value, p))
    ensures q in Ends(Repeat(true, child), value, p)
  {
    var m: nat :| m in Ends(child, value, p) && m <= q && InStar(child, value[m..q]);
    PlusCons(child, value[p..m], value[m..q]);
    assert value[p..m] + value[m..q] == value[p..q];
  }

  lemma PlusIsRepeat(child: FindNode, value: string, p: nat)
    requires p <= |value|
    ensures StarEnds(child, value, Ends(child, value, p)) == Ends(Repeat(true, child), value, p)
  {
    forall q | q in Ends(Repeat(true, child), value, p) ensures q in StarEnds(child, value, Ends(child, value, p)) {
      PlusStarts(child, value, p, q);
    }
    forall q | q in StarEnds(child, value, Ends(child, value, p)) ensures q in Ends(Repeat(true, child), value, p) {
      PlusGoesOn(child, value, p, q);
    }
  }

  /** `FindExpression::matches` without an attribute filter: the whole name is a word of the root. */
  method Matches(root: FindNode, value: string) returns (matched: bool)
    ensures matched <==> InLanguage(root, value)
  {
    var positions := MatchNode(root, value, 0);
    matched := |value| in positions;
    assert value[0..|value|] == value;
  }
}
