/** The grammar of find expressions: concrete derivations with the text they spell and the tree
    they denote. Alternation binds weakest, then concatenation, then a quantifier, then an atom. */
module FindGrammar {
  import opened Text
  import opened FindLanguage
  import opened Visa

  const MAX_EXPRESSION := 256
  const MAX_DEPTH := 32

  datatype Quantifier = Once | Star | Plus

  datatype ClassCharacter = ClassCharacter(escaped: bool, c: char)

  datatype Entry = Entry(first: ClassCharacter, last: Option<ClassCharacter>)

  datatype Atom =
    | Plain(c: char)
    | Escaped(c: char)
    | Wildcard
    | Bracket(negated: bool, entries: seq<Entry>)
    | Group(body: Alternation)

  datatype Item = Item(atom: Atom, quantifier: Quantifier)

  datatype Branch = Branch(items: seq<Item>)

  datatype Alternation = Alternation(branches: seq<Branch>)

  // Text

  function ClassCharacterText(x: ClassCharacter): string {
    if x.escaped then ['\\', x.c] else [x.c]
  }

  function EntryText(e: Entry): string {
    ClassCharacterText(e.first) + if e.last.Some? then "-" + ClassCharacterText(e.last.value) else ""
  }

  function EntriesText(entries: seq<Entry>): string {
    if entries == [] then "" else EntryText(entries[0]) + EntriesText(entries[1..])
  }

  function QuantifierText(q: Quantifier): string {
    match q
    case Once => ""
    case Star => "*"
    case Plus => "+"
  }

  function AtomText(a: Atom): string
    decreases a, 0
  {
    match a
    case Plain(c) => [c]
    case Escaped(c) => ['\\', c]
    case Wildcard => "?"
    case Bracket(negated, entries) => "[" + (if negated then "^" else "") + EntriesText(entries) + "]"
    case Group(body) => "(" + BranchesText(body.branches) + ")"
  }

  function ItemText(i: Item): string
    decreases i, 0
  {
    AtomText(i.atom) + QuantifierText(i.quantifier)
  }

  function ItemsText(items: seq<Item>): string
    decreases items, 1
  {
    if items == [] then "" else ItemText(items[0]) + ItemsText(items[1..])
  }

  function BranchText(b: Branch): string
    decreases b, 2
  {
    ItemsText(b.items)
  }

  function BranchesText(branches: seq<Branch>): string
    decreases branches, 3
  {
    if branches == [] then ""
    else if |branches| == 1 then BranchText(branches[0])
    else BranchText(branches[0]) + "|" + BranchesText(branches[1..])
  }

  // Well-formedness: which derivations the grammar admits

  predicate WfClassCharacter(x: ClassCharacter) {
    x.escaped || (x.c != '\\' && x.c != ']')
  }

  /** A dash that does not close the class reads as a range. */
  predicate StartsRange(s: string) {
    |s| >= 2 && s[0] == '-' && s[1] != ']'
  }

  predicate WfEntry(e: Entry) {
    && WfClassCharacter(e.first)
    && (e.last.Some? ==>
      && WfClassCharacter(e.last.value)
      && Order(Fold(e.first.c)) <= Order(Fold(e.last.value.c)))
  }

  predicate WfEntries(entries: seq<Entry>) {
    entries != [] ==>
      && WfEntry(entries[0])
      && (entries[0].last.None? ==> !StartsRange(EntriesText(entries[1..]) + "]"))
      && WfEntries(entries[1..])
  }

  predicate Operator(c: char) {
    c in {'(', '[', '?', '*', '+', ')', '|', '\\'}
  }

  ghost predicate WfAtom(a: Atom, depth: nat)
    decreases a, 0
  {
    match a
    case Plain(c) => !Operator(c)
    case Escaped(c) => true
    case Wildcard => true
    case Bracket(negated, entries) =>
      && entries != [] && WfEntries(entries)
      && (!negated ==> EntriesText(entries)[..1] != "^")
    case Group(body) => WfAlternation(body, depth + 1)
  }

  ghost predicate WfItem(i: Item, depth: nat)
    decreases i, 0
  {
    WfAtom(i.atom, depth)
  }

  ghost predicate WfItems(items: seq<Item>, depth: nat)
    decreases items, 1
  {
    forall k :: 0 <= k < |items| ==> WfItem(items[k], depth)
  }

  ghost predicate WfBranch(b: Branch, depth: nat)
    decreases b, 1
  {
    b.items != [] && WfItems(b.items, depth)
  }

  ghost predicate WfBranches(branches: seq<Branch>, depth: nat)
    decreases branches, 2
  {
    forall k :: 0 <= k < |branches| ==> WfBranch(branches[k], depth)
  }

  /** Groups nest at most `MAX_DEPTH` deep. */
  ghost predicate WfAlternation(a: Alternation, depth: nat)
    decreases a, 3
  {
    depth <= MAX_DEPTH && a.branches != [] && WfBranches(a.branches, depth)
  }

  // The tree a derivation denotes

  function EntryRange(e: Entry): (char, char) {
    (Fold(e.first.c), Fold(if e.last.Some? then e.last.value.c else e.first.c))
  }

  function EntryRanges(entries: seq<Entry>): (r: seq<(char, char)>)
    ensures |r| == |entries|
  {
    if entries == [] then [] else [EntryRange(entries[0])] + EntryRanges(entries[1..])
  }

  function AtomTree(a: Atom): FindNode
    decreases a, 0
  {
    match a
    case Plain(c) => Literal(Fold(c))
    case Escaped(c) => Literal(Fold(c))
    case Wildcard => AnyCharacter
    case Bracket(negated, entries) => CharacterClass(negated, EntryRanges(entries))
    case Group(body) => AlternationTree(body)
  }

  function ItemTree(i: Item): FindNode
    decreases i, 0
  {
    match i.quantifier
    case Once => AtomTree(i.atom)
    case Star => Repeat(false, AtomTree(i.atom))
    case Plus => Repeat(true, AtomTree(i.atom))
  }

  function ItemTrees(items: seq<Item>): (r: seq<FindNode>)
    ensures |r| == |items|
    decreases items, 1
  {
    if items == [] then [] else [ItemTree(items[0])] + ItemTrees(items[1..])
  }

  function BranchTree(b: Branch): FindNode
    decreases b, 2
  {
    var trees := ItemTrees(b.items);
    if |trees| == 1 then trees[0] else Concatenation(trees)
  }

  function BranchTrees(branches: seq<Branch>): (r: seq<FindNode>)
    ensures |r| == |branches|
    decreases branches, 3
  {
    if branches == [] then [] else [BranchTree(branches[0])] + BranchTrees(branches[1..])
  }

  function AlternationTree(a: Alternation): FindNode
    decreases a, 4
  {
    var trees := BranchTrees(a.branches);
    if |trees| == 1 then trees[0] else Alternate(trees)
  }

  lemma {:induction false} EntryRangesSnoc(entries: seq<Entry>, e: Entry)
    ensures EntryRanges(entries + [e]) == EntryRanges(entries) + [EntryRange(e)]
  {
    if entries != [] {
      EntryRangesSnoc(entries[1..], e);
      assert (entries + [e])[1..] == entries[1..] + [e];
    }
  }

  lemma {:induction false} ItemTreesSnoc(items: seq<Item>, i: Item)
    ensures ItemTrees(items + [i]) == ItemTrees(items) + [ItemTree(i)]
  {
    if items != [] {
      ItemTreesSnoc(items[1..], i);
      assert (items + [i])[1..] == items[1..] + [i];
    }
  }

  lemma {:induction false} BranchTreesSnoc(branches: seq<Branch>, b: Branch)
    ensures BranchTrees(branches + [b]) == BranchTrees(branches) + [BranchTree(b)]
  {
    if branches != [] {
      BranchTreesSnoc(branches[1..], b);
      assert (branches + [b])[1..] == branches[1..] + [b];
    }
  }
}
