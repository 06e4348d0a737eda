/** Reading an expression by recursive descent, as a function from the remaining text to a
    derivation, and the proof that it accepts exactly the well-formed derivations. */
module FindReading {
  import opened Text
  import opened FindLanguage
  import opened FindGrammar
  import opened Sequences
  import opened Visa

  datatype ParseError =
    | EmptyOversizedOrFilter
    | UnexpectedToken
    | TooComplex
    | TooDeep
    | RepeatedQuantifier
    | EmptyBranch
    | MissingAtom
    | UnclosedGroup
    | OperatorWithoutAtom
    | DanglingEscape
    | UnclosedCharacterClass
    | DanglingClassEscape
    | InvalidRange
    | EmptyOrUnclosedClass

  datatype Result<T> = Ok(value: T) | Err(error: ParseError)

  predicate Starts(s: string, c: char) {
    s != "" && s[0] == c
  }

  predicate StartsQuantifier(s: string) {
    Starts(s, '*') || Starts(s, '+')
  }

  /** Where a concatenation ends. */
  predicate EndsBranch(s: string) {
    s == "" || s[0] == ')' || s[0] == '|'
  }

  function ReadClassCharacter(s: string): (r: Result<(ClassCharacter, string)>)
    ensures r.Ok? ==> |r.value.1| < |s|
  {
    if s == "" then Err(UnclosedCharacterClass)
    else if s[0] == '\\' then
      if |s| == 1 then Err(DanglingClassEscape) else Ok((ClassCharacter(true, s[1]), s[2..]))
    else Ok((ClassCharacter(false, s[0]), s[1..]))
  }

  function ReadEntry(s: string): (r: Result<(Entry, string)>)
    ensures r.Ok? ==> |r.value.1| < |s|
  {
    match ReadClassCharacter(s)
    case Err(e) => Err(e)
    case Ok((first, rest)) =>
      if !StartsRange(rest) then Ok((Entry(first, None), rest))
      else
        match ReadClassCharacter(rest[1..])
        case Err(e) => Err(InvalidRange)
        case Ok((last, after)) =>
          if Order(Fold(first.c)) > Order(Fold(last.c)) then Err(InvalidRange)
          else Ok((Entry(first, Some(last)), after))
  }

  function ReadEntries(s: string): (r: Result<(seq<Entry>, string)>)
    ensures r.Ok? ==> |r.value.1| <= |s|
    decreases |s|
  {
    if s == "" || s[0] == ']' then Ok(([], s))
    else
      match ReadEntry(s)
      case Err(e) => Err(e)
      case Ok((entry, rest)) => PrependEntries([entry], ReadEntries(rest))
  }

  function PrependEntries(front: seq<Entry>, r: Result<(seq<Entry>, string)>): Result<(seq<Entry>, string)> {
    match r
    case Err(e) => Err(e)
    case Ok((entries, rest)) => Ok((front + entries, rest))
  }

  /** After the opening bracket. */
  function ReadClass(s: string): (r: Result<(Atom, string)>)
    ensures r.Ok? ==> |r.value.1| < |s|
  {
    var negated := Starts(s, '^');
    match ReadEntries(if negated then s[1..] else s)
    case Err(e) => Err(e)
    case Ok((entries, rest)) =>
      if entries == [] || !Starts(rest, ']') then Err(EmptyOrUnclosedClass)
      else Ok((Bracket(negated, entries), rest[1..]))
  }

  function ReadAtom(s: string, depth: nat): (r: Result<(Atom, string)>)
    ensures r.Ok? ==> |r.value.1| < |s|
    decreases |s|, 0
  {
    if s == "" then Err(MissingAtom)
    else
      var token, rest := s[0], s[1..];
      if token == '(' then
        match ReadAlternation(rest, depth + 1)
        case Err(e) => Err(e)
        case Ok((body, after)) =>
          if Starts(after, ')') then Ok((Group(body), after[1..])) else Err(UnclosedGroup)
      else if token == '[' then ReadClass(rest)
      else if token == '?' then Ok((Wildcard, rest))
      else if token == '*' || token == '+' || token == ')' then Err(OperatorWithoutAtom)
      else if token == '\\' then
        if rest == "" then Err(DanglingEscape) else Ok((Escaped(rest[0]), rest[1..]))
      else Ok((Plain(token), rest))
  }

  function ReadItem(s: string, depth: nat): (r: Result<(Item, string)>)
    ensures r.Ok? ==> |r.value.1| < |s|
    decreases |s|, 1
  {
    match ReadAtom(s, depth)
    case Err(e) => Err(e)
    case Ok((atom, rest)) => Quantified(atom, rest)
  }

  function Quantified(atom: Atom, rest: string): (r: Result<(Item, string)>)
    ensures r.Ok? ==> |r.value.1| <= |rest|
  {
    if !StartsQuantifier(rest) then Ok((Item(atom, Once), rest))
    else if StartsQuantifier(rest[1..]) then Err(RepeatedQuantifier)
    else Ok((Item(atom, if rest[0] == '+' then Plus else Star), rest[1..]))
  }

  function ReadItems(s: string, depth: nat): (r: Result<(seq<Item>, string)>)
    ensures r.Ok? ==> |r.value.1| <= |s| && EndsBranch(r.value.1)
    ensures r.Ok? && r.value.0 != [] ==> |r.value.1| < |s|
    decreases |s|, 2
  {
    if EndsBranch(s) then Ok(([], s))
    else
      match ReadItem(s, depth)
      case Err(e) => Err(e)
      case Ok((item, rest)) => PrependItems([item], ReadItems(rest, depth))
  }

  function PrependItems(front: seq<Item>, r: Result<(seq<Item>, string)>): Result<(seq<Item>, string)> {
    match r
    case Err(e) => Err(e)
    case Ok((items, rest)) => Ok((front + items, rest))
  }

  function ReadBranches(s: string, depth: nat): (r: Result<(seq<Branch>, string)>)
    ensures r.Ok? ==> |r.value.1| < |s| && (r.value.1 == "" || r.value.1[0] == ')')
    decreases |s|, 3
  {
    match ReadItems(s, depth)
    case Err(e) => Err(e)
    case Ok((items, rest)) =>
      if items == [] then Err(EmptyBranch)
      else if Starts(rest, '|') then PrependBranches([Branch(items)], ReadBranches(rest[1..], depth))
      else Ok(([Branch(items)], rest))
  }

  function PrependBranches(front: seq<Branch>, r: Result<(seq<Branch>, string)>): Result<(seq<Branch>, string)> {
    match r
    case Err(e) => Err(e)
    case Ok((branches, rest)) => Ok((front + branches, rest))
  }

  function ReadAlternation(s: string, depth: nat): (r: Result<(Alternation, string)>)
    ensures r.Ok? ==> |r.value.1| < |s| && (r.value.1 == "" || r.value.1[0] == ')')
    decreases |s|, 4
  {
    if depth > MAX_DEPTH then Err(TooDeep)
    else
      match ReadBranches(s, depth)
      case Err(e) => Err(e)
      case Ok((branches, rest)) => Ok((Alternation(branches), rest))
  }

  function ReadExpression(s: string): Result<Alternation> {
    if s == "" || |s| >= MAX_EXPRESSION || '{' in s || '}' in s then Err(EmptyOversizedOrFilter)
    else
      match ReadAlternation(s, 0)
      case Err(e) => Err(e)
      case Ok((root, rest)) => if rest == "" then Ok(root) else Err(UnexpectedToken)
  }

  // Soundness: what is read spells the consumed text and is well-formed

  lemma ClassCharacterSound(s: string)
    requires ReadClassCharacter(s).Ok?
    ensures var (x, rest) := ReadClassCharacter(s).value;
            s == ClassCharacterText(x) + rest && (x.escaped || x.c != '\\')
            && (s[0] != ']' ==> WfClassCharacter(x))
  {
  }

  lemma EntrySound(s: string)
    requires s != "" && s[0] != ']' && ReadEntry(s).Ok?
    ensures var (entry, rest) := ReadEntry(s).value;
            s == EntryText(entry) + rest && WfEntry(entry) && (entry.last.None? ==> !StartsRange(rest))
  {
    ClassCharacterSound(s);
    var (first, rest) := ReadClassCharacter(s).value;
    if StartsRange(rest) {
      ClassCharacterSound(rest[1..]);
      var (last, after) := ReadClassCharacter(rest[1..]).value;
      assert rest == "-" + rest[1..];
      Regroup("-", ClassCharacterText(last), after);
      Regroup(ClassCharacterText(first), "-" + ClassCharacterText(last), after);
    } else {
      assert EntryText(Entry(first, None)) == ClassCharacterText(first);
    }
  }

  lemma {:induction false} EntriesSound(s: string)
    requires ReadEntries(s).Ok? && Starts(ReadEntries(s).value.1, ']')
    ensures var (entries, rest) := ReadEntries(s).value;
            s == EntriesText(entries) + rest && WfEntries(entries)
    decreases |s|
  {
    if s[0] != ']' {
      EntrySound(s);
      var (entry, rest) := ReadEntry(s).value;
      EntriesSound(rest);
      var (entries, after) := ReadEntries(rest).value;
      StartsRangeClosed(EntriesText(entries), after);
      EntriesCons(entry, entries, after);
      assert ReadEntries(s) == Ok(([entry] + entries, after));
    }
  }

  lemma EntriesCons(entry: Entry, entries: seq<Entry>, after: string)
    requires WfEntry(entry) && WfEntries(entries)
    requires entry.last.None? ==> !StartsRange(EntriesText(entries) + "]")
    ensures WfEntries([entry] + entries)
    ensures EntriesText([entry] + entries) + after == EntryText(entry) + (EntriesText(entries) + after)
  {
    assert ([entry] + entries)[1..] == entries;
    Regroup(EntryText(entry), EntriesText(entries), after);
  }

  /** Whether a class text starts a range does not depend on what follows its closing bracket. */
  lemma StartsRangeClosed(text: string, rest: string)
    requires Starts(rest, ']')
    ensures StartsRange(text + rest) <==> StartsRange(text + "]")
  {
    var open, closed := text + rest, text + "]";
    assert open[0] == closed[0];
    if |text| >= 1 {
      assert open[1] == closed[1];
    }
  }

  lemma {:induction false} ClassSound(s: string, depth: nat)
    requires ReadClass(s).Ok?
    ensures var (atom, rest) := ReadClass(s).value;
            "[" + s == AtomText(atom) + rest && WfAtom(atom, depth)
  {
    var negated := Starts(s, '^');
    var body := if negated then s[1..] else s;
    EntriesSound(body);
    var (entries, rest) := ReadEntries(body).value;
    assert rest == "]" + rest[1..];
    assert s == (if negated then "^" else "") + body;
    if !negated {
      NoCaret(entries, rest);
    }
    BracketText(negated, entries, rest[1..]);
  }

  lemma NoCaret(entries: seq<Entry>, rest: string)
    requires entries != [] && !Starts(EntriesText(entries) + rest, '^')
    ensures EntriesText(entries)[..1] != "^"
  {
    EntriesTextNonempty(entries);
    assert EntriesText(entries)[..1][0] == (EntriesText(entries) + rest)[0];
  }

  lemma BracketText(negated: bool, entries: seq<Entry>, after: string)
    ensures var inside := EntriesText(entries) + ("]" + after);
            "[" + ((if negated then "^" else "") + inside) == AtomText(Bracket(negated, entries)) + after
  {
  }

  lemma EntriesTextNonempty(entries: seq<Entry>)
    requires entries != []
    ensures EntriesText(entries) != ""
  {
  }

  lemma {:induction false} AtomSound(s: string, depth: nat)
    requires !EndsBranch(s) && ReadAtom(s, depth).Ok?
    ensures var (atom, rest) := ReadAtom(s, depth).value;
            s == AtomText(atom) + rest && WfAtom(atom, depth)
    decreases |s|, 0
  {
    if s[0] == '(' {
      AlternationSound(s[1..], depth + 1);
      var (body, after) := ReadAlternation(s[1..], depth + 1).value;
      var text := BranchesText(body.branches);
      assert s == "(" + s[1..] && after == ")" + after[1..];
      assert "(" + (text + (")" + after[1..])) == "(" + text + ")" + after[1..];
    } else if s[0] == '[' {
      ClassSound(s[1..], depth);
      assert "[" + s[1..] == s;
    }
  }

  lemma ItemSound(s: string, depth: nat)
    requires !EndsBranch(s) && ReadItem(s, depth).Ok?
    ensures var (item, rest) := ReadItem(s, depth).value;
            s == ItemText(item) + rest && WfItem(item, depth)
    decreases |s|, 1
  {
    AtomSound(s, depth);
    var (atom, rest) := ReadAtom(s, depth).value;
    if StartsQuantifier(rest) {
      assert rest == [rest[0]] + rest[1..];
      assert AtomText(atom) + ([rest[0]] + rest[1..]) == AtomText(atom) + [rest[0]] + rest[1..];
    } else {
      assert AtomText(atom) + "" == AtomText(atom);
    }
  }

  lemma {:induction false} ItemsSound(s: string, depth: nat)
    requires ReadItems(s, depth).Ok?
    ensures var (items, rest) := ReadItems(s, depth).value;
            s == ItemsText(items) + rest && WfItems(items, depth)
    decreases |s|, 2
  {
    if !EndsBranch(s) {
      ItemSound(s, depth);
      var (item, rest) := ReadItem(s, depth).value;
      ItemsSound(rest, depth);
      var (items, after) := ReadItems(rest, depth).value;
      ItemsCons(item, items, after);
      assert ReadItems(s, depth) == Ok(([item] + items, after));
    }
  }

  lemma ItemsCons(item: Item, items: seq<Item>, after: string)
    ensures ItemsText([item] + items) + after == ItemText(item) + (ItemsText(items) + after)
  {
    assert ([item] + items)[1..] == items;
    Regroup(ItemText(item), ItemsText(items), after);
  }

  lemma {:induction false} BranchesSound(s: string, depth: nat)
    requires ReadBranches(s, depth).Ok?
    ensures var (branches, rest) := ReadBranches(s, depth).value;
            branches != [] && s == BranchesText(branches) + rest && WfBranches(branches, depth)
    decreases |s|, 3
  {
    ItemsSound(s, depth);
    var (items, rest) := ReadItems(s, depth).value;
    if Starts(rest, '|') {
      BranchesSound(rest[1..], depth);
      var (branches, after) := ReadBranches(rest[1..], depth).value;
      BranchesCons(Branch(items), branches, depth, after);
      assert rest == "|" + rest[1..];
      assert ReadBranches(s, depth) == Ok(([Branch(items)] + branches, after));
    }
  }

  lemma BranchesCons(branch: Branch, branches: seq<Branch>, depth: nat, after: string)
    requires WfBranch(branch, depth) && branches != [] && WfBranches(branches, depth)
    ensures WfBranches([branch] + branches, depth)
    ensures BranchesText([branch] + branches) + after == BranchText(branch) + ("|" + (BranchesText(branches) + after))
  {
    var all := [branch] + branches;
    assert all[1..] == branches;
    Regroup(BranchText(branch) + "|", BranchesText(branches), after);
    Regroup(BranchText(branch), "|", BranchesText(branches) + after);
  }

  lemma {:induction false} AlternationSound(s: string, depth: nat)
    requires ReadAlternation(s, depth).Ok?
    ensures var (a, rest) := ReadAlternation(s, depth).value;
            s == BranchesText(a.branches) + rest && WfAlternation(a, depth)
    decreases |s|, 4
  {
    BranchesSound(s, depth);
  }

  // Completeness: every well-formed derivation is read back from its text

  lemma ClassCharacterComplete(x: ClassCharacter, rest: string)
    requires WfClassCharacter(x)
    ensures ReadClassCharacter(ClassCharacterText(x) + rest) == Ok((x, rest))
  {
    var s := ClassCharacterText(x) + rest;
    assert s[|ClassCharacterText(x)|..] == rest;
  }

  lemma {:induction false} EntriesComplete(entries: seq<Entry>, rest: string)
    requires WfEntries(entries) && Starts(rest, ']')
    ensures ReadEntries(EntriesText(entries) + rest) == Ok((entries, rest))
    decreases |entries|
  {
    if entries == [] {
      assert EntriesText(entries) + rest == rest;
    } else {
      var e, others := entries[0], entries[1..];
      var after := EntriesText(others) + rest;
      assert EntriesText(entries) + rest == EntryText(e) + after;
      EntriesComplete(others, rest);
      StartsRangeClosed(EntriesText(others), rest);
      EntryComplete(e, after);
      assert [e] + others == entries;
    }
  }

  lemma EntryComplete(e: Entry, after: string)
    requires WfEntry(e)
    requires e.last.None? ==> !StartsRange(after)
    ensures ReadEntry(EntryText(e) + after) == Ok((e, after))
    ensures (EntryText(e) + after)[0] != ']'
  {
    if e.last.Some? {
      RangeComplete(e.first, e.last.value, after);
    } else {
      assert EntryText(e) + after == ClassCharacterText(e.first) + after;
      ClassCharacterComplete(e.first, after);
    }
  }

  lemma RangeComplete(first: ClassCharacter, last: ClassCharacter, after: string)
    requires WfEntry(Entry(first, Some(last)))
    ensures ReadEntry(EntryText(Entry(first, Some(last))) + after) == Ok((Entry(first, Some(last)), after))
  {
    var tail := "-" + (ClassCharacterText(last) + after);
    assert EntryText(Entry(first, Some(last))) + after == ClassCharacterText(first) + tail;
    ClassCharacterComplete(first, tail);
    assert tail[1..] == ClassCharacterText(last) + after;
    ClassCharacterComplete(last, after);
    assert StartsRange(tail);
  }

  lemma ClassComplete(negated: bool, entries: seq<Entry>, rest: string)
    requires WfAtom(Bracket(negated, entries), 0)
    ensures ReadClass((if negated then "^" else "") + EntriesText(entries) + "]" + rest)
         == Ok((Bracket(negated, entries), rest))
  {
    var body := EntriesText(entries) + ("]" + rest);
    var s := (if negated then "^" else "") + EntriesText(entries) + "]" + rest;
    assert s == (if negated then "^" else "") + body;
    EntriesComplete(entries, "]" + rest);
    assert EntriesText(entries) != "";
    if negated {
      assert s[1..] == body;
    } else {
      assert EntriesText(entries)[..1] == [EntriesText(entries)[0]];
      assert s == body;
    }
  }

  lemma AtomStarts(a: Atom, depth: nat)
    requires WfAtom(a, depth)
    ensures AtomText(a) != "" && AtomText(a)[0] !in {'*', '+', ')', '|'}
  {
  }

  lemma EscapedComplete(c: char, depth: nat, rest: string)
    ensures ReadAtom(AtomText(Escaped(c)) + rest, depth) == Ok((Escaped(c), rest))
  {
    var s := AtomText(Escaped(c)) + rest;
    assert s[1..] == [c] + rest;
    assert s[1..][1..] == rest;
  }

  lemma {:induction false} AtomComplete(a: Atom, depth: nat, rest: string)
    requires WfAtom(a, depth)
    ensures ReadAtom(AtomText(a) + rest, depth) == Ok((a, rest))
    decreases a, 0
  {
    match a
    case Plain(c) => assert ([c] + rest)[1..] == rest;
    case Escaped(c) => EscapedComplete(c, depth, rest);
    case Wildcard => assert ("?" + rest)[1..] == rest;
    case Bracket(negated, entries) =>
      var inside := (if negated then "^" else "") + EntriesText(entries) + "]" + rest;
      assert AtomText(a) + rest == "[" + inside;
      assert ("[" + inside)[1..] == inside;
      ClassComplete(negated, entries, rest);
    case Group(body) =>
      var inside := BranchesText(body.branches) + (")" + rest);
      assert AtomText(a) + rest == "(" + inside;
      assert ("(" + inside)[1..] == inside;
      AlternationComplete(body, depth + 1, ")" + rest);
      assert (")" + rest)[1..] == rest;
  }

  lemma {:induction false} ItemsComplete(items: seq<Item>, depth: nat, rest: string)
    requires WfItems(items, depth) && EndsBranch(rest)
    ensures ReadItems(ItemsText(items) + rest, depth) == Ok((items, rest))
    decreases items, 1
  {
    if items == [] {
      assert ItemsText(items) + rest == rest;
    } else {
      var i, others := items[0], items[1..];
      var after := ItemsText(others) + rest;
      assert ItemsText(items) + rest == ItemText(i) + after;
      assert WfItem(items[0], depth);
      assert WfItems(others, depth);
      ItemsComplete(others, depth, rest);
      ItemsStart(others, depth, rest);
      ItemComplete(i, depth, after);
      assert [i] + others == items;
    }
  }

  /** What follows an item never starts with a quantifier. */
  lemma ItemsStart(items: seq<Item>, depth: nat, rest: string)
    requires WfItems(items, depth) && EndsBranch(rest)
    ensures !StartsQuantifier(ItemsText(items) + rest)
  {
    if items == [] {
      assert ItemsText(items) + rest == rest;
    } else {
      assert WfItem(items[0], depth);
      AtomStarts(items[0].atom, depth);
      assert ItemsText(items) == AtomText(items[0].atom) + QuantifierText(items[0].quantifier) + ItemsText(items[1..]);
      assert (ItemsText(items) + rest)[0] == AtomText(items[0].atom)[0];
    }
  }

  lemma {:induction false} ItemComplete(i: Item, depth: nat, after: string)
    requires WfItem(i, depth) && !StartsQuantifier(after)
    ensures ReadItem(ItemText(i) + after, depth) == Ok((i, after))
    ensures !EndsBranch(ItemText(i) + after)
    decreases i, 0
  {
    var tail := QuantifierText(i.quantifier) + after;
    assert ItemText(i) + after == AtomText(i.atom) + tail;
    AtomStarts(i.atom, depth);
    AtomComplete(i.atom, depth, tail);
    QuantifierComplete(i, after);
  }

  lemma QuantifierComplete(i: Item, after: string)
    requires !StartsQuantifier(after)
    ensures Quantified(i.atom, QuantifierText(i.quantifier) + after) == Ok((i, after))
  {
    match i.quantifier
    case Once => assert QuantifierText(i.quantifier) + after == after;
    case Star => assert ("*" + after)[1..] == after;
    case Plus => assert ("+" + after)[1..] == after;
  }

  lemma {:induction false} BranchesComplete(branches: seq<Branch>, depth: nat, rest: string)
    requires branches != [] && WfBranches(branches, depth)
    requires rest == "" || rest[0] == ')'
    ensures ReadBranches(BranchesText(branches) + rest, depth) == Ok((branches, rest))
    decreases branches, 2
  {
    var items := branches[0].items;
    assert WfBranch(branches[0], depth);
    if |branches| == 1 {
      ItemsComplete(items, depth, rest);
      assert [Branch(items)] == branches;
    } else {
      assert WfBranches(branches[1..], depth);
      var after := BranchesText(branches[1..]) + rest;
      assert BranchesText(branches) + rest == ItemsText(items) + ("|" + after);
      ItemsComplete(items, depth, "|" + after);
      assert ("|" + after)[1..] == after;
      BranchesComplete(branches[1..], depth, rest);
      assert [Branch(items)] + branches[1..] == branches;
    }
  }

  lemma {:induction false} AlternationComplete(a: Alternation, depth: nat, rest: string)
    requires WfAlternation(a, depth)
    requires rest == "" || rest[0] == ')'
    ensures ReadAlternation(BranchesText(a.branches) + rest, depth) == Ok((a, rest))
    decreases a, 3
  {
    BranchesComplete(a.branches, depth, rest);
  }

  /** `s` is the text of the well-formed derivation `a`. */
  ghost predicate Derives(a: Alternation, s: string) {
    WfAlternation(a, 0) && BranchesText(a.branches) == s
  }

  /** An expression is accepted exactly when it is short enough, free of braces and derivable, and
      the derivation found is the only one. */
  lemma ReadExpressionExact(s: string, a: Alternation)
    ensures ReadExpression(s) == Ok(a) <==>
            0 < |s| < MAX_EXPRESSION && '{' !in s && '}' !in s && Derives(a, s)
  {
    if ReadAlternation(s, 0).Ok? {
      AlternationSound(s, 0);
      assert s + "" == s;
    }
    if Derives(a, s) {
      AlternationComplete(a, 0, "");
      assert BranchesText(a.branches) + "" == s;
    }
  }

  // The node limit is never met

  ghost predicate Bounded<T>(r: Result<T>) {
    r != Err(TooComplex)
  }

  lemma {:induction false} EntriesBounded(s: string)
    ensures Bounded(ReadEntries(s))
    decreases |s|
  {
    if s != "" && s[0] != ']' && ReadEntry(s).Ok? {
      EntriesBounded(ReadEntry(s).value.1);
    }
  }

  lemma {:induction false} AtomBounded(s: string, depth: nat)
    ensures Bounded(ReadAtom(s, depth))
    decreases |s|, 0
  {
    if Starts(s, '(') {
      AlternationBounded(s[1..], depth + 1);
    } else if Starts(s, '[') {
      EntriesBounded(if Starts(s[1..], '^') then s[1..][1..] else s[1..]);
    }
  }

  lemma {:induction false} ItemsBounded(s: string, depth: nat)
    ensures Bounded(ReadItems(s, depth))
    decreases |s|, 2
  {
    if !EndsBranch(s) {
      AtomBounded(s, depth);
      if ReadItem(s, depth).Ok? {
        ItemsBounded(ReadItem(s, depth).value.1, depth);
      }
    }
  }

  lemma {:induction false} BranchesBounded(s: string, depth: nat)
    ensures Bounded(ReadBranches(s, depth))
    decreases |s|, 3
  {
    ItemsBounded(s, depth);
    if ReadItems(s, depth).Ok? {
      var (items, rest) := ReadItems(s, depth).value;
      if items != [] && Starts(rest, '|') {
        BranchesBounded(rest[1..], depth);
      }
    }
  }

  lemma {:induction false} AlternationBounded(s: string, depth: nat)
    ensures Bounded(ReadAlternation(s, depth))
    decreases |s|, 4
  {
    if depth <= MAX_DEPTH {
      BranchesBounded(s, depth);
    }
  }

  /** No expression is rejected for its number of nodes: the limit on its length and depth is met first. */
  lemma NeverTooComplex(s: string)
    ensures ReadExpression(s) != Err(TooComplex)
  {
    AlternationBounded(s, 0);
  }
}
