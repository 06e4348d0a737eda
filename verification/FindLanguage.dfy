/** What a find expression means: the set of words each regular-expression node stands for,
    independently of how the matcher walks a name. */
module FindLanguage {
  import opened Text

  datatype FindNode =
    | Empty
    | Literal(c: char)
    | AnyCharacter
    | CharacterClass(negated: bool, ranges: seq<(char, char)>)
    | Concatenation(children: seq<FindNode>)
    | Alternate(children: seq<FindNode>)
    | Repeat(oneOrMore: bool, child: FindNode)

  predicate InSomeRange(ranges: seq<(char, char)>, c: char) {
    exists k | 0 <= k < |ranges| :: Order(ranges[k].0) <= Order(c) <= Order(ranges[k].1)
  }

  function Flatten(words: seq<string>): (r: string) {
    if words == [] then "" else words[0] + Flatten(words[1..])
  }

  /** `w` is a word of the case-folded language of `n`. */
  ghost predicate InLanguage(n: FindNode, w: string)
    decreases n, 0
  {
    match n
    case Empty => w == ""
    case Literal(c) => |w| == 1 && Fold(w[0]) == c
    case AnyCharacter => |w| == 1
    case CharacterClass(negated, ranges) => |w| == 1 && InSomeRange(ranges, Fold(w[0])) != negated
    case Concatenation(children) =>
      exists words: seq<string> :: Flatten(words) == w && Pairwise(children, words)
    case Alternate(children) =>
      exists k :: 0 <= k < |children| && InLanguage(children[k], w)
    case Repeat(oneOrMore, child) =>
      exists words: seq<string> :: Flatten(words) == w && EachIn(child, words) && (oneOrMore ==> words != [])
  }

  ghost predicate EachIn(child: FindNode, words: seq<string>)
    decreases child, 1
  {
    forall k :: 0 <= k < |words| ==> InLanguage(child, words[k])
  }

  ghost predicate Pairwise(children: seq<FindNode>, words: seq<string>)
    decreases children, 1
  {
    && |words| == |children|
    && forall k :: 0 <= k < |children| ==> InLanguage(children[k], words[k])
  }

  /** The end positions of the words of `n` that start at `p` in `value`. */
  ghost function Ends(n: FindNode, value: string, p: nat): (ends: set<nat>)
    requires p <= |value|
    ensures forall q :: q in ends ==> p <= q <= |value|
  {
    set q: nat | p <= q <= |value| && InLanguage(n, value[p..q])
  }

  /** `w` splits into words of `children`, one each and in order. */
  ghost predicate InProduct(children: seq<FindNode>, w: string) {
    exists words: seq<string> :: Flatten(words) == w && Pairwise(children, words)
  }

  /** `w` splits into words of `child`, any number of them. */
  ghost predicate InStar(child: FindNode, w: string) {
    exists words: seq<string> :: Flatten(words) == w && EachIn(child, words)
  }

  ghost function ProductEnds(children: seq<FindNode>, value: string, p: nat): (ends: set<nat>)
    requires p <= |value|
    ensures forall q :: q in ends ==> p <= q <= |value|
  {
    set q: nat | p <= q <= |value| && InProduct(children, value[p..q])
  }

  lemma {:induction false} FlattenAppend(a: seq<string>, b: seq<string>)
    ensures Flatten(a + b) == Flatten(a) + Flatten(b)
  {
    if a == [] {
      assert a + b == b;
    } else {
      FlattenAppend(a[1..], b);
      assert (a + b)[1..] == a[1..] + b;
    }
  }

  lemma FlattenSnoc(words: seq<string>, x: string)
    ensures Flatten(words + [x]) == Flatten(words) + x
  {
    FlattenAppend(words, [x]);
    assert Flatten([x]) == x + Flatten([]);
  }

  lemma ProductSnocSplit(children: seq<FindNode>, last: FindNode, w: string) returns (m: nat)
    requires InProduct(children + [last], w)
    ensures m <= |w| && InProduct(children, w[..m]) && InLanguage(last, w[m..])
  {
    var all := children + [last];
    var words: seq<string> :| Flatten(words) == w && Pairwise(all, words);
    var front, x := words[..|children|], words[|children|];
    assert words == front + [x];
    FlattenSnoc(front, x);
    m := |Flatten(front)|;
    assert w[..m] == Flatten(front) && w[m..] == x;
    assert InLanguage(all[|children|], x);
    assert Pairwise(children, front) by {
      forall k | 0 <= k < |children| ensures InLanguage(children[k], front[k]) {
        assert all[k] == children[k] && words[k] == front[k];
      }
    }
  }

  lemma ProductSnocJoin(children: seq<FindNode>, last: FindNode, w: string, x: string)
    requires InProduct(children, w) && InLanguage(last, x)
    ensures InProduct(children + [last], w + x)
  {
    var words: seq<string> :| Flatten(words) == w && Pairwise(children, words);
    FlattenSnoc(words, x);
    assert Pairwise(children + [last], words + [x]);
  }

  lemma StarSnoc(child: FindNode, w: string, x: string)
    requires InStar(child, w) && InLanguage(child, x)
    ensures InStar(child, w + x)
  {
    var words: seq<string> :| Flatten(words) == w && EachIn(child, words);
    FlattenSnoc(words, x);
    assert EachIn(child, words + [x]);
  }

  lemma StarOfNone(child: FindNode)
    ensures InStar(child, "")
  {
    assert Flatten([]) == "" && EachIn(child, []);
  }

  lemma PlusUncons(child: FindNode, w: string) returns (m: nat)
    requires InLanguage(Repeat(true, child), w)
    ensures m <= |w| && InLanguage(child, w[..m]) && InStar(child, w[m..])
  {
    var words: seq<string> :| Flatten(words) == w && EachIn(child, words) && words != [];
    m := |words[0]|;
    assert w[..m] == words[0] && w[m..] == Flatten(words[1..]);
    assert EachIn(child, words[1..]);
  }

  lemma PlusCons(child: FindNode, x: string, w: string)
    requires InLanguage(child, x) && InStar(child, w)
    ensures InLanguage(Repeat(true, child), x + w)
  {
    var words: seq<string> :| Flatten(words) == w && EachIn(child, words);
    var longer := [x] + words;
    assert longer[1..] == words;
    assert Flatten(longer) == x + w;
    assert EachIn(child, longer);
  }
}
