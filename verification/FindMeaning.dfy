/** What a derivation means, said of the derivation itself: which words its characters, wildcards,
    brackets and quantifiers stand for. The tree that the parser builds means the same. */
module FindMeaning {
  import opened FindGrammar
  import opened FindLanguage
  import opened Text
  import opened Visa

  /** `w` is the one character `c`, in any case. */
  predicate IsCharacter(w: string, c: char) {
    |w| == 1 && Fold(w[0]) == Fold(c)
  }

  /** `c` lies between the ends of an entry, whatever their case; an entry without a dash is both of
      its ends. */
  predicate Within(c: char, e: Entry) {
    && Order(Fold(e.first.c)) <= Order(Fold(c))
    && Order(Fold(c)) <= if e.last.Some? then Order(Fold(e.last.value.c)) else Order(Fold(e.first.c))
  }

  predicate WithinSome(c: char, entries: seq<Entry>) {
    exists k | 0 <= k < |entries| :: Within(c, entries[k])
  }

  ghost predicate AtomMeans(a: Atom, w: string)
    decreases a, 0
  {
    match a
    case Plain(c) => IsCharacter(w, c)
    case Escaped(c) => IsCharacter(w, c)
    case Wildcard => |w| == 1
    case Bracket(negated, entries) =>
      |w| == 1 && if negated then !WithinSome(w[0], entries) else WithinSome(w[0], entries)
    case Group(body) => AlternationMeans(body, w)
  }

  /** Every word is one of the atom's. */
  ghost predicate AllMeant(a: Atom, words: seq<string>)
    decreases a, 1
  {
    forall k :: 0 <= k < |words| ==> AtomMeans(a, words[k])
  }

  ghost predicate ItemMeans(i: Item, w: string)
    decreases i, 0
  {
    match i.quantifier
    case Once => AtomMeans(i.atom, w)
    case Star => exists words: seq<string> :: Flatten(words) == w && AllMeant(i.atom, words)
    case Plus => exists words: seq<string> :: Flatten(words) == w && AllMeant(i.atom, words) && |words| > 0
  }

  /** One item after the other, with nothing left over. */
  ghost predicate ItemsMean(items: seq<Item>, w: string)
    decreases items, 1
  {
    if items == [] then w == ""
    else exists m: nat :: m <= |w| && ItemMeans(items[0], w[..m]) && ItemsMean(items[1..], w[m..])
  }

  ghost predicate BranchMeans(b: Branch, w: string)
    decreases b, 2
  {
    ItemsMean(b.items, w)
  }

  ghost predicate AlternationMeans(a: Alternation, w: string)
    decreases a, 3
  {
    exists k :: 0 <= k < |a.branches| && BranchMeans(a.branches[k], w)
  }

  // The tree means the same

  lemma {:induction false} EntryRangesAt(entries: seq<Entry>, k: nat)
    requires k < |entries|
    ensures EntryRanges(entries)[k] == EntryRange(entries[k])
  {
    if k > 0 {
      EntryRangesAt(entries[1..], k - 1);
    }
  }

  lemma RangesMeaning(entries: seq<Entry>, c: char)
    ensures InSomeRange(EntryRanges(entries), Fold(c)) <==> WithinSome(c, entries)
  {
    forall k | 0 <= k < |entries|
      ensures Order(EntryRanges(entries)[k].0) <= Order(Fold(c)) <= Order(EntryRanges(entries)[k].1) <==> Within(c, entries[k])
    {
      EntryRangesAt(entries, k);
    }
  }

  lemma {:induction false} AtomMeaning(a: Atom, w: string)
    ensures InLanguage(AtomTree(a), w) <==> AtomMeans(a, w)
    decreases a, 0
  {
    match a {
      case Bracket(negated, entries) =>
        if |w| == 1 {
          RangesMeaning(entries, w[0]);
        }
      case Group(body) => AlternationMeaning(body, w);
      case _ =>
    }
  }

  lemma {:induction false} WordsMeaning(a: Atom, words: seq<string>)
    ensures EachIn(AtomTree(a), words) <==> AllMeant(a, words)
    decreases a, 1
  {
    forall k | 0 <= k < |words| ensures InLanguage(AtomTree(a), words[k]) <==> AtomMeans(a, words[k]) {
      AtomMeaning(a, words[k]);
    }
  }

  lemma {:induction false} ItemMeaning(i: Item, w: string)
    ensures InLanguage(ItemTree(i), w) <==> ItemMeans(i, w)
    decreases i, 0
  {
    if i.quantifier == Once {
      AtomMeaning(i.atom, w);
    } else {
      forall words: seq<string> ensures EachIn(AtomTree(i.atom), words) <==> AllMeant(i.atom, words) {
        WordsMeaning(i.atom, words);
      }
    }
  }

  lemma ProductCons(child: FindNode, children: seq<FindNode>, w: string, m: nat)
    requires m <= |w| && InLanguage(child, w[..m]) && InProduct(children, w[m..])
    ensures InProduct([child] + children, w)
  {
    var words: seq<string> :| Flatten(words) == w[m..] && Pairwise(children, words);
    var all := [w[..m]] + words;
    assert all[1..] == words;
    assert Flatten(all) == w[..m] + w[m..] == w;
    assert Pairwise([child] + children, all);
  }

  lemma ProductUncons(child: FindNode, children: seq<FindNode>, w: string) returns (m: nat)
    requires InProduct([child] + children, w)
    ensures m <= |w| && InLanguage(child, w[..m]) && InProduct(children, w[m..])
  {
    var all := [child] + children;
    var words: seq<string> :| Flatten(words) == w && Pairwise(all, words);
    m := |words[0]|;
    assert w[..m] == words[0] && w[m..] == Flatten(words[1..]);
    assert InLanguage(all[0], words[0]);
    assert Pairwise(children, words[1..]) by {
      forall k | 0 <= k < |children| ensures InLanguage(children[k], words[1..][k]) {
        assert InLanguage(all[k + 1], words[k + 1]);
      }
    }
  }

  lemma {:induction false} ItemsMeaning(items: seq<Item>, w: string)
    ensures InProduct(ItemTrees(items), w) <==> ItemsMean(items, w)
    decreases items, 1
  {
    if items == [] {
      assert Flatten([]) == "" && Pairwise([], []);
    } else {
      forall v: string ensures InLanguage(ItemTree(items[0]), v) <==> ItemMeans(items[0], v) {
        ItemMeaning(items[0], v);
      }
      forall v: string ensures InProduct(ItemTrees(items[1..]), v) <==> ItemsMean(items[1..], v) {
        ItemsMeaning(items[1..], v);
      }
      if InProduct(ItemTrees(items), w) {
        var m := ProductUncons(ItemTree(items[0]), ItemTrees(items[1..]), w);
        assert ItemMeans(items[0], w[..m]) && ItemsMean(items[1..], w[m..]);
      }
      if ItemsMean(items, w) {
        var m: nat :| m <= |w| && ItemMeans(items[0], w[..m]) && ItemsMean(items[1..], w[m..]);
        ProductCons(ItemTree(items[0]), ItemTrees(items[1..]), w, m);
      }
    }
  }

  lemma {:induction false} BranchMeaning(b: Branch, w: string)
    ensures InLanguage(BranchTree(b), w) <==> BranchMeans(b, w)
    decreases b, 2
  {
    ItemsMeaning(b.items, w);
    if |b.items| == 1 {
      OneProduct(ItemTree(b.items[0]), w);
      assert ItemTrees(b.items[1..]) == [];
    }
  }

  lemma OneProduct(child: FindNode, w: string)
    ensures InProduct([child], w) <==> InLanguage(child, w)
  {
    if InProduct([child], w) {
      var words: seq<string> :| Flatten(words) == w && Pairwise([child], words);
      assert words == [words[0]] && words[1..] == [];
      assert InLanguage([child][0], words[0]);
      assert w == words[0] + Flatten([]);
    }
    if InLanguage(child, w) {
      assert [w][1..] == [] && Flatten([w]) == w + Flatten([]);
      assert Pairwise([child], [w]);
    }
  }

  lemma {:induction false} BranchTreesAt(branches: seq<Branch>, k: nat)
    requires k < |branches|
    ensures BranchTrees(branches)[k] == BranchTree(branches[k])
  {
    if k > 0 {
      BranchTreesAt(branches[1..], k - 1);
    }
  }

  /** A word is in the language of the tree exactly if it is meant by the derivation. */
  lemma {:induction false} AlternationMeaning(a: Alternation, w: string)
    ensures InLanguage(AlternationTree(a), w) <==> AlternationMeans(a, w)
    decreases a, 3
  {
    forall k | 0 <= k < |a.branches|
      ensures InLanguage(BranchTrees(a.branches)[k], w) <==> BranchMeans(a.branches[k], w)
    {
      BranchTreesAt(a.branches, k);
      BranchMeaning(a.branches[k], w);
    }
  }
}
