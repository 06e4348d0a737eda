/** How a resource name falls into parts at its double colons. */
module NameParts {
  import opened Visa

  /** Whether a bracket is open after `s`, or `None` if brackets nest or close unopened in it. */
  function Bracketed(s: string): Option<bool> {
    if s == "" then Some(false)
    else
      match Bracketed(s[..|s| - 1])
      case None => None
      case Some(open) =>
        if s[|s| - 1] == '[' then if open then None else Some(true)
        else if s[|s| - 1] == ']' then if open then Some(false) else None
        else Some(open)
  }

  /** A separator starts at `i`. */
  predicate SeparatorAt(s: string, i: nat) {
    i + 1 < |s| && s[i] == ':' && s[i + 1] == ':' && Bracketed(s[..i]) == Some(false)
  }

  /** The first separator from `i` on, or the end. */
  function FirstSeparator(s: string, i: nat): (k: nat)
    requires i <= |s|
    ensures i <= k <= |s| && (k < |s| ==> SeparatorAt(s, k))
    decreases |s| - i
  {
    if i == |s| || SeparatorAt(s, i) then i else FirstSeparator(s, i + 1)
  }

  lemma {:induction false} FirstSeparatorMeans(s: string, i: nat)
    requires i <= |s|
    ensures forall j :: i <= j < FirstSeparator(s, i) ==> !SeparatorAt(s, j)
    decreases |s| - i
  {
    if i < |s| && !SeparatorAt(s, i) {
      FirstSeparatorMeans(s, i + 1);
    }
  }

  /** `split`; the empty result stands for a name that cannot be split. */
  function Split(s: string): seq<string>
    decreases |s|
  {
    var k := FirstSeparator(s, 0);
    if k == 0 then []
    else if k == |s| then if Bracketed(s) == Some(false) then [s] else []
    else
      var rest := Split(s[k + 2..]);
      if rest == [] then [] else [s[..k]] + rest
  }

  function Join(parts: seq<string>): string {
    if parts == [] then "" else if |parts| == 1 then parts[0] else parts[0] + "::" + Join(parts[1..])
  }

  /** Text that a separator neither cuts nor leaves with a bracket open. */
  ghost predicate Whole(part: string) {
    part != "" && Bracketed(part) == Some(false) && forall i: nat :: !SeparatorAt(part, i)
  }

  predicate EndsInColon(part: string) {
    part != "" && part[|part| - 1] == ':'
  }

  ghost predicate GoodParts(parts: seq<string>) {
    && parts != []
    && (forall k :: 0 <= k < |parts| ==> Whole(parts[k]))
    && (forall k :: 0 <= k < |parts| - 1 ==> !EndsInColon(parts[k]))
  }

  lemma SeparatorInPrefix(s: string, n: nat, i: nat)
    requires n <= |s| && i + 1 < n
    ensures SeparatorAt(s[..n], i) <==> SeparatorAt(s, i)
  {
    assert s[..n][..i] == s[..i];
  }

  /** A part that ends where the first separator starts does not end in a colon. */
  lemma BeforeSeparator(s: string, k: nat)
    requires k == FirstSeparator(s, 0) && 0 < k < |s|
    ensures Whole(s[..k]) && !EndsInColon(s[..k])
  {
    FirstSeparatorMeans(s, 0);
    forall i: nat ensures !SeparatorAt(s[..k], i) {
      if i + 1 < k {
        SeparatorInPrefix(s, k, i);
      }
    }
    if s[k - 1] == ':' {
      assert s[..k][..k - 1] == s[..k - 1];
      assert SeparatorAt(s, k - 1);
    }
  }

  lemma GoodCons(part: string, rest: seq<string>)
    requires Whole(part) && !EndsInColon(part) && GoodParts(rest)
    ensures GoodParts([part] + rest) && Join([part] + rest) == part + "::" + Join(rest)
  {
    assert ([part] + rest)[1..] == rest;
  }

  lemma UnsplitIsWhole(s: string)
    requires s != "" && FirstSeparator(s, 0) == |s| && Bracketed(s) == Some(false)
    ensures Whole(s)
  {
    FirstSeparatorMeans(s, 0);
  }

  lemma {:induction false} SplitSound(s: string)
    ensures Split(s) != [] ==> GoodParts(Split(s)) && Join(Split(s)) == s
    decreases |s|
  {
    var k := FirstSeparator(s, 0);
    if Split(s) == [] {
    } else if k < |s| {
      var rest := s[k + 2..];
      SplitSound(rest);
      BeforeSeparator(s, k);
      GoodCons(s[..k], Split(rest));
      assert s == s[..k] + "::" + rest;
    } else {
      UnsplitIsWhole(s);
    }
  }

  lemma FirstSeparatorIs(s: string, k: nat)
    requires k <= |s| && (k < |s| ==> SeparatorAt(s, k)) && forall j: nat :: j < k ==> !SeparatorAt(s, j)
    ensures FirstSeparator(s, 0) == k
  {
    FirstSeparatorMeans(s, 0);
  }

  lemma SeparatorAfter(part: string, rest: string)
    requires Whole(part) && !EndsInColon(part)
    ensures FirstSeparator(part + "::" + rest, 0) == |part|
  {
    var s := part + "::" + rest;
    assert s[..|part|] == part;
    forall j: nat | j < |part| ensures !SeparatorAt(s, j) {
      if j + 1 < |part| {
        SeparatorInPrefix(s, |part|, j);
      } else {
        assert s[j] == part[j];
      }
    }
    FirstSeparatorIs(s, |part|);
  }

  lemma {:induction false} SplitComplete(parts: seq<string>)
    requires GoodParts(parts)
    ensures Split(Join(parts)) == parts
    decreases |parts|
  {
    var s := Join(parts);
    if |parts| == 1 {
      assert Whole(s);
      FirstSeparatorIs(s, |s|);
    } else {
      var rest := parts[1..];
      assert forall k :: 0 <= k < |rest| ==> rest[k] == parts[k + 1];
      SplitComplete(rest);
      SeparatorAfter(parts[0], Join(rest));
      assert s == parts[0] + "::" + Join(rest);
      assert s[|parts[0]| + 2..] == Join(rest) && s[..|parts[0]|] == parts[0];
      assert parts == [parts[0]] + rest;
    }
  }

  /** Splitting is the exact inverse of joining whole parts: a name has at most one reading. */
  lemma SplitExact(s: string, parts: seq<string>)
    requires parts != []
    ensures Split(s) == parts <==> GoodParts(parts) && Join(parts) == s
  {
    SplitSound(s);
    if GoodParts(parts) {
      SplitComplete(parts);
    }
  }

  /** What the loop has still to put in front of the parts of the rest. */
  function Prepend(parts: seq<string>, rest: seq<string>): seq<string> {
    if rest == [] then [] else parts + rest
  }

  lemma BracketStep(s: string, start: nat, index: nat)
    requires start <= index < |s|
    ensures Bracketed(s[start..index + 1]) == match Bracketed(s[start..index])
                                             case None => None
                                             case Some(open) =>
                                               if s[index] == '[' then if open then None else Some(true)
                                               else if s[index] == ']' then if open then Some(false) else None
                                               else Some(open)
  {
    assert s[start..index + 1][..index - start] == s[start..index];
  }

  /** Once brackets are wrong they stay wrong, and nothing is split any more. */
  lemma {:induction false} BracketsStayWrong(s: string, n: nat)
    requires n <= |s| && Bracketed(s[..n]).None?
    ensures Bracketed(s).None?
    decreases |s| - n
  {
    if n == |s| {
      assert s[..n] == s;
    } else {
      BracketStep(s, 0, n);
      assert s[0..n] == s[..n] && s[0..n + 1] == s[..n + 1];
      BracketsStayWrong(s, n + 1);
    }
  }

  lemma WrongBracketsDoNotSplit(s: string, n: nat)
    requires n <= |s| && Bracketed(s[..n]).None? && forall j: nat :: j < n ==> !SeparatorAt(s, j)
    ensures Split(s) == []
  {
    forall j: nat | j < |s| ensures !SeparatorAt(s, j) {
      if n <= j {
        assert s[..j][..n] == s[..n];
        BracketsStayWrong(s[..j], n);
      }
    }
    FirstSeparatorIs(s, |s|);
    BracketsStayWrong(s, n);
  }

  /** Nothing has been split off `tail` yet by the loop, which has come to `n`. */
  ghost predicate Scanned(tail: string, n: nat, bracketed: bool) {
    n <= |tail| && Bracketed(tail[..n]) == Some(bracketed) && forall j: nat :: j < n ==> !SeparatorAt(tail, j)
  }

  lemma ScanOn(tail: string, n: nat, bracketed: bool)
    requires Scanned(tail, n, bracketed) && n < |tail|
    ensures tail[n] == '[' && bracketed ==> Split(tail) == []
    ensures tail[n] == '[' && !bracketed ==> Scanned(tail, n + 1, true)
    ensures tail[n] == ']' && !bracketed ==> Split(tail) == []
    ensures tail[n] == ']' && bracketed ==> Scanned(tail, n + 1, false)
    ensures tail[n] != '[' && tail[n] != ']' ==>
              && (SeparatorAt(tail, n) <==> !bracketed && n + 1 < |tail| && tail[n] == ':' && tail[n + 1] == ':')
              && (!SeparatorAt(tail, n) ==> Scanned(tail, n + 1, bracketed))
  {
    BracketStep(tail, 0, n);
    assert tail[0..n] == tail[..n] && tail[0..n + 1] == tail[..n + 1];
    if (tail[n] == '[' && bracketed) || (tail[n] == ']' && !bracketed) {
      WrongBracketsDoNotSplit(tail, n + 1);
    }
  }

  lemma SplitOff(tail: string, n: nat, parts: seq<string>)
    requires Scanned(tail, n, false) && SeparatorAt(tail, n)
    ensures n == 0 ==> Split(tail) == []
    ensures n > 0 ==> Prepend(parts, Split(tail)) == Prepend(parts + [tail[..n]], Split(tail[n + 2..]))
  {
    FirstSeparatorIs(tail, n);
    if n > 0 {
      var rest := Split(tail[n + 2..]);
      assert parts + ([tail[..n]] + rest) == parts + [tail[..n]] + rest;
    }
  }

  lemma SplitLast(tail: string, bracketed: bool)
    requires Scanned(tail, |tail|, bracketed)
    ensures Split(tail) == if bracketed || tail == "" then [] else [tail]
  {
    assert tail[..|tail|] == tail;
    FirstSeparatorIs(tail, |tail|);
  }

  /** The state of the loop of `split`. */
  ghost predicate Progress(value: string, parts: seq<string>, start: nat, index: nat, bracketed: bool) {
    && start <= index <= |value|
    && Scanned(value[start..], index - start, bracketed)
    && Split(value) == Prepend(parts, Split(value[start..]))
  }

  lemma ProgressOn(value: string, parts: seq<string>, start: nat, index: nat, bracketed: bool)
    requires Progress(value, parts, start, index, bracketed) && index < |value|
    ensures value[index] == '[' ==> if bracketed then Split(value) == [] else Progress(value, parts, start, index + 1, true)
    ensures value[index] == ']' ==> if bracketed then Progress(value, parts, start, index + 1, false) else Split(value) == []
    ensures value[index] != '[' && value[index] != ']' ==>
              if !bracketed && index + 1 < |value| && value[index] == ':' && value[index + 1] == ':' then
                if start == index then Split(value) == []
                else Progress(value, parts + [value[start..index]], index + 2, index + 2, false)
              else Progress(value, parts, start, index + 1, bracketed)
  {
    var tail := value[start..];
    ScanOn(tail, index - start, bracketed);
    assert value[index] == tail[index - start];
    if value[index] != '[' && value[index] != ']' && SeparatorAt(tail, index - start) {
      SplitOff(tail, index - start, parts);
      assert tail[..index - start] == value[start..index];
      assert tail[index - start + 2..] == value[index + 2..];
      assert value[index + 2..][..0] == "";
    }
  }

  lemma ProgressEnds(value: string, parts: seq<string>, start: nat, bracketed: bool)
    requires Progress(value, parts, start, |value|, bracketed)
    ensures Split(value) == if bracketed || start == |value| then [] else parts + [value[start..|value|]]
  {
    SplitLast(value[start..], bracketed);
    assert value[start..|value|] == value[start..];
  }

  lemma ProgressStarts(value: string)
    ensures Progress(value, [], 0, 0, false)
  {
    assert value[0..] == value && value[..0] == "";
  }

  /** The loop itself. */
  method SplitName(value: string) returns (parts: seq<string>)
    ensures parts == Split(value)
  {
    parts := [];
    var start, index, bracketed := 0, 0, false;
    ProgressStarts(value);
    while index <= |value|
      invariant Progress(value, parts, start, index, bracketed)
      decreases |value| - index
    {
      if index < |value| {
        ProgressOn(value, parts, start, index, bracketed);
      } else {
        ProgressEnds(value, parts, start, bracketed);
      }
      if index < |value| && value[index] == '[' {
        if bracketed {
          return [];
        }
        bracketed := true;
        index := index + 1;
        continue;
      }
      if index < |value| && value[index] == ']' {
        if !bracketed {
          return [];
        }
        bracketed := false;
        index := index + 1;
        continue;
      }
      var separator := !bracketed && index + 1 < |value| && value[index] == ':' && value[index + 1] == ':';
      var atEnd := index == |value|;
      if !separator && !atEnd {
        index := index + 1;
        continue;
      }
      var part := value[start..index];
      if |part| == 0 {
        return [];
      }
      parts := parts + [part];
      if atEnd {
        break;
      }
      start := index + 2;
      index := start;
    }
    if bracketed {
      return [];
    }
  }
}
