/** The find-expression parser as the library runs it: one object that advances a position and
    counts the nodes it makes. */
module FindParser {
  import opened Text
  import opened FindLanguage
  import opened FindGrammar
  import opened FindReading

  const MAX_NODES := 512

  class Parser {
    const input: string
    var position: nat
    var nodes: nat

    constructor (input: string)
      ensures this.input == input && position == 0 && nodes == 0
    {
      this.input := input;
      position, nodes := 0, 0;
    }

    ghost function Rest(): string
      reads this
    {
      if position <= |input| then input[position..] else ""
    }

    /** Twice the characters read always pays for the nodes made so far. */
    ghost predicate Ready()
      reads this
    {
      |input| < MAX_EXPRESSION && position <= |input| && nodes <= 2 * position
    }

    /** Reading went from `before` to `rest` and left room for one more node or pending tree. */
    ghost predicate Advanced(before: nat, nodesBefore: nat, rest: string)
      reads this
    {
      && before <= position <= |input|
      && Rest() == rest
      && nodes + 1 <= nodesBefore + 2 * (position - before)
    }

    predicate Sees(c: char)
      reads this
    {
      position < |input| && input[position] == c
    }

    method Make(node: FindNode) returns (r: Result<FindNode>)
      modifies this`nodes
      ensures nodes == old(nodes) + 1
      ensures r == if nodes > MAX_NODES then Err(TooComplex) else Ok(node)
    {
      nodes := nodes + 1;
      if nodes > MAX_NODES {
        return Err(TooComplex);
      }
      return Ok(node);
    }

    method Parse() returns (r: Result<FindNode>)
      requires position == 0 && nodes == 0
      modifies this
      ensures match ReadExpression(input)
              case Err(e) => r == Err(e)
              case Ok(root) => r == Ok(AlternationTree(root)) && nodes <= MAX_NODES
      ensures r != Err(TooComplex)
    {
      NeverTooComplex(input);
      if input == "" || |input| >= MAX_EXPRESSION || '{' in input || '}' in input {
        return Err(EmptyOversizedOrFilter);
      }
      assert input[0..] == input;
      r := ParseAlternate(0);
      if r.Ok? && position != |input| {
        r := Err(UnexpectedToken);
      }
    }

    method ParseAlternate(depth: nat) returns (r: Result<FindNode>)
      requires Ready()
      modifies this
      ensures position <= |input|
      ensures match ReadAlternation(old(Rest()), depth)
              case Err(e) => r == Err(e)
              case Ok((a, rest)) => r == Ok(AlternationTree(a)) && Advanced(old(position), old(nodes), rest)
      decreases |input| - position, 4
    {
      if depth > MAX_DEPTH {
        return Err(TooDeep);
      }
      ghost var start := Rest();
      var branch := ParseConcatenation(depth);
      if branch.Err? {
        return branch;
      }
      ghost var done := [Branch(ReadItems(start, depth).value.0)];
      var branches := [branch.value];
      assert BranchTrees(done) == branches;
      while Sees('|')
        invariant Alternating(start, depth, done, branches, old(position), old(nodes))
        decreases |input| - position
      {
        var next;
        ghost var more;
        next, more := ParseNextBranch(depth, start, done, branches, old(position), old(nodes));
        if next.Err? {
          return next;
        }
        done := done + [more];
        branches := branches + [next.value];
      }
      if |branches| == 1 {
        return Ok(branches[0]);
      }
      r := Make(Alternate(branches));
    }

    /** Between two branches: `branches` are the trees of the derivations `done`, what is still to be
        read goes behind them, and twice the characters read pays for the nodes and pending trees. */
    ghost predicate Alternating(start: string, depth: nat, done: seq<Branch>, branches: seq<FindNode>, before: nat,
                                nodesBefore: nat)
      reads this
    {
      && |input| < MAX_EXPRESSION && before < position <= |input| && nodesBefore <= 2 * before
      && nodes + |branches| <= nodesBefore + 2 * (position - before)
      && branches == BranchTrees(done) && done != []
      && EndsBranch(Rest())
      && ReadBranches(start, depth) ==
         if Sees('|') then PrependBranches(done, ReadBranches(Rest()[1..], depth)) else Ok((done, Rest()))
    }

    /** The body of the loop over an alternation. */
    method ParseNextBranch(depth: nat, ghost start: string, ghost done: seq<Branch>, ghost branches: seq<FindNode>,
                           ghost before: nat, ghost nodesBefore: nat)
      returns (next: Result<FindNode>, ghost more: Branch)
      requires Sees('|') && Alternating(start, depth, done, branches, before, nodesBefore)
      modifies this
      ensures position <= |input|
      ensures next.Err? ==> ReadBranches(start, depth) == Err(next.error)
      ensures next.Ok? ==> position > old(position)
      ensures next.Ok? ==> Alternating(start, depth, done + [more], branches + [next.value], before, nodesBefore)
      decreases |input| - position, 4
    {
      position := position + 1;
      ghost var tail := Rest();
      next := ParseConcatenation(depth);
      more := Branch([]);
      if next.Err? {
        return;
      }
      more := Branch(ReadItems(tail, depth).value.0);
      BranchTreesSnoc(done, more);
      if Sees('|') {
        PrependBranchesTwice(done, more, ReadBranches(Rest()[1..], depth));
      }
    }

    method ParseConcatenation(depth: nat) returns (r: Result<FindNode>)
      requires Ready()
      modifies this
      ensures position <= |input|
      ensures match ReadItems(old(Rest()), depth)
              case Err(e) => r == Err(e)
              case Ok((items, rest)) =>
                if items == [] then r == Err(EmptyBranch)
                else r == Ok(BranchTree(Branch(items))) && Advanced(old(position), old(nodes), rest)
      decreases |input| - position, 3
    {
      var sequence: seq<FindNode> := [];
      ghost var start, items := Rest(), [];
      PrependNoItems(ReadItems(start, depth));
      while position < |input| && input[position] != ')' && input[position] != '|'
        invariant old(position) <= position <= |input|
        invariant nodes + |sequence| <= old(nodes) + 2 * (position - old(position))
        invariant sequence == ItemTrees(items)
        invariant ReadItems(start, depth) == PrependItems(items, ReadItems(Rest(), depth))
        decreases |input| - position
      {
        ghost var here := Rest();
        var atom := ParseQuantified(depth);
        if atom.Err? {
          return atom;
        }
        ghost var item := ReadItem(here, depth).value.0;
        ItemTreesSnoc(items, item);
        PrependItemsTwice(items, item, ReadItems(Rest(), depth));
        items := items + [item];
        sequence := sequence + [atom.value];
      }
      assert ReadItems(Rest(), depth) == Ok(([], Rest()));
      assert items + [] == items;
      if sequence == [] {
        return Err(EmptyBranch);
      }
      if |sequence| == 1 {
        return Ok(sequence[0]);
      }
      r := Make(Concatenation(sequence));
    }

    /** An atom and its quantifier: the body of the loop over a concatenation. */
    method ParseQuantified(depth: nat) returns (r: Result<FindNode>)
      requires Ready() && !EndsBranch(Rest())
      modifies this
      ensures position <= |input|
      ensures match ReadItem(old(Rest()), depth)
              case Err(e) => r == Err(e)
              case Ok((item, rest)) => r == Ok(ItemTree(item)) && Advanced(old(position), old(nodes), rest)
      decreases |input| - position, 2
    {
      r := ParseAtom(depth);
      if r.Err? {
        return;
      }
      if Sees('*') || Sees('+') {
        var oneOrMore := input[position] == '+';
        position := position + 1;
        r := Make(Repeat(oneOrMore, r.value));
        if Sees('*') || Sees('+') {
          return Err(RepeatedQuantifier);
        }
      }
    }

    method ParseAtom(depth: nat) returns (r: Result<FindNode>)
      requires Ready()
      modifies this
      ensures position <= |input|
      ensures match ReadAtom(old(Rest()), depth)
              case Err(e) => r == Err(e)
              case Ok((atom, rest)) => r == Ok(AtomTree(atom)) && Advanced(old(position), old(nodes), rest)
      decreases |input| - position, 1
    {
      if position >= |input| {
        return Err(MissingAtom);
      }
      var token := input[position];
      position := position + 1;
      if token == '(' {
        r := ParseAlternate(depth + 1);
        if r.Err? {
          return;
        }
        if !Sees(')') {
          return Err(UnclosedGroup);
        }
        position := position + 1;
        return;
      }
      if token == '[' {
        r := ParseClass();
        return;
      }
      if token == '?' {
        r := Make(AnyCharacter);
        return;
      }
      if token == '*' || token == '+' || token == ')' {
        return Err(OperatorWithoutAtom);
      }
      var literal := token;
      if token == '\\' {
        if position >= |input| {
          return Err(DanglingEscape);
        }
        literal := input[position];
        position := position + 1;
      }
      r := Make(Literal(Fold(literal)));
    }

    method ReadOne() returns (r: Result<char>)
      requires position <= |input|
      modifies this`position
      ensures old(position) <= position <= |input|
      ensures match ReadClassCharacter(old(Rest()))
              case Err(e) => r == Err(e)
              case Ok((x, rest)) => r == Ok(Fold(x.c)) && Rest() == rest && old(position) < position
    {
      if position >= |input| {
        return Err(UnclosedCharacterClass);
      }
      var value := input[position];
      position := position + 1;
      if value == '\\' {
        if position >= |input| {
          return Err(DanglingClassEscape);
        }
        value := input[position];
        position := position + 1;
      }
      return Ok(Fold(value));
    }

    method ReadRange() returns (r: Result<(char, char)>)
      requires position < |input|
      modifies this`position
      ensures old(position) <= position <= |input|
      ensures match ReadEntry(old(Rest()))
              case Err(e) => r == Err(e)
              case Ok((entry, rest)) => r == Ok(EntryRange(entry)) && Rest() == rest && old(position) < position
    {
      var begin := ReadOne();
      if begin.Err? {
        return Err(begin.error);
      }
      var end := begin;
      if position + 1 < |input| && input[position] == '-' && input[position + 1] != ']' {
        position := position + 1;
        end := ReadOne();
        if end.Err? || Order(begin.value) > Order(end.value) {
          return Err(InvalidRange);
        }
      }
      return Ok((begin.value, end.value));
    }

    method ParseClass() returns (r: Result<FindNode>)
      requires Ready() && 0 < position && nodes <= 2 * position - 2
      modifies this
      ensures position <= |input|
      ensures match ReadClass(old(Rest()))
              case Err(e) => r == Err(e)
              case Ok((atom, rest)) =>
                r == Ok(AtomTree(atom)) && Rest() == rest && nodes == old(nodes) + 1 && position >= old(position)
    {
      var negated := false;
      if Sees('^') {
        negated := true;
        position := position + 1;
      }
      var ranges := ReadRanges();
      if ranges.Err? {
        return Err(ranges.error);
      }
      if ranges.value == [] || !Sees(']') {
        return Err(EmptyOrUnclosedClass);
      }
      position := position + 1;
      r := Make(CharacterClass(negated, ranges.value));
    }

    /** The loop over the entries of a class. */
    method ReadRanges() returns (r: Result<seq<(char, char)>>)
      requires position <= |input|
      modifies this`position
      ensures old(position) <= position <= |input|
      ensures match ReadEntries(old(Rest()))
              case Err(e) => r == Err(e)
              case Ok((entries, rest)) => r == Ok(EntryRanges(entries)) && Rest() == rest
    {
      var ranges: seq<(char, char)> := [];
      ghost var start, entries := Rest(), [];
      PrependNoEntries(ReadEntries(start));
      while position < |input| && input[position] != ']'
        invariant old(position) <= position <= |input|
        invariant ranges == EntryRanges(entries)
        invariant ReadEntries(start) == PrependEntries(entries, ReadEntries(Rest()))
        decreases |input| - position
      {
        ghost var here := Rest();
        var range := ReadRange();
        if range.Err? {
          return Err(range.error);
        }
        ghost var entry := ReadEntry(here).value.0;
        EntryRangesSnoc(entries, entry);
        PrependEntriesTwice(entries, entry, ReadEntries(Rest()));
        entries := entries + [entry];
        ranges := ranges + [range.value];
      }
      assert ReadEntries(Rest()) == Ok(([], Rest()));
      assert entries + [] == entries;
      return Ok(ranges);
    }
  }

  lemma PrependNoItems(r: Result<(seq<Item>, string)>)
    ensures PrependItems([], r) == r
  {
    if r.Ok? {
      assert [] + r.value.0 == r.value.0;
    }
  }

  lemma PrependNoEntries(r: Result<(seq<Entry>, string)>)
    ensures PrependEntries([], r) == r
  {
    if r.Ok? {
      assert [] + r.value.0 == r.value.0;
    }
  }

  lemma PrependBranchesTwice(branches: seq<Branch>, branch: Branch, r: Result<(seq<Branch>, string)>)
    ensures PrependBranches(branches, PrependBranches([branch], r)) == PrependBranches(branches + [branch], r)
  {
    if r.Ok? {
      assert branches + ([branch] + r.value.0) == branches + [branch] + r.value.0;
    }
  }

  lemma PrependItemsTwice(items: seq<Item>, item: Item, r: Result<(seq<Item>, string)>)
    ensures PrependItems(items, PrependItems([item], r)) == PrependItems(items + [item], r)
  {
    if r.Ok? {
      assert items + ([item] + r.value.0) == items + [item] + r.value.0;
    }
  }

  lemma PrependEntriesTwice(entries: seq<Entry>, entry: Entry, r: Result<(seq<Entry>, string)>)
    ensures PrependEntries(entries, PrependEntries([entry], r)) == PrependEntries(entries + [entry], r)
  {
    if r.Ok? {
      assert entries + ([entry] + r.value.0) == entries + [entry] + r.value.0;
    }
  }
}
