/** What a list of answers has brought. The environment's methods extend the list; nothing else does. */
module History {
  import opened Sequences

  /** The content of the answers behind the first `from`, in order. */
  ghost function Brought<A, T>(content: A -> seq<T>, answers: seq<A>, from: nat): seq<T> {
    if |answers| <= from then []
    else Brought(content, answers[..|answers| - 1], from) + content(answers[|answers| - 1])
  }

  /** Between two moments exactly the content of the new answers has arrived. */
  ghost predicate Received<A, T>(content: A -> seq<T>, answers: seq<A>, arrived: seq<T>,
                                 answers': seq<A>, arrived': seq<T>) {
    answers <= answers' && arrived' == arrived + Brought(content, answers', |answers|)
  }

  lemma ReceivedNothing<A, T>(content: A -> seq<T>, answers: seq<A>, arrived: seq<T>)
    ensures Received(content, answers, arrived, answers, arrived)
  {
  }

  lemma BroughtMore<A, T>(content: A -> seq<T>, answers: seq<A>, answer: A, from: nat)
    requires from <= |answers|
    ensures Brought(content, answers + [answer], from) == Brought(content, answers, from) + content(answer)
  {
    assert (answers + [answer])[..|answers|] == answers;
  }

  lemma ReceivedMore<A, T>(content: A -> seq<T>, answers: seq<A>, arrived: seq<T>,
                           answers': seq<A>, arrived': seq<T>, answer: A)
    requires Received(content, answers, arrived, answers', arrived')
    ensures Received(content, answers, arrived, answers' + [answer], arrived' + content(answer))
  {
    BroughtMore(content, answers', answer, |answers|);
    Regroup(arrived, Brought(content, answers', |answers|), content(answer));
  }

  /** Two stretches in a row are one. */
  lemma {:induction false} ReceivedThen<A, T>(content: A -> seq<T>, answers: seq<A>, arrived: seq<T>,
                                              middle: seq<A>, reached: seq<T>, answers': seq<A>, arrived': seq<T>)
    requires Received(content, answers, arrived, middle, reached)
    requires Received(content, middle, reached, answers', arrived')
    ensures Received(content, answers, arrived, answers', arrived')
    decreases |answers'|
  {
    if middle == answers' {
      assert Brought(content, answers', |middle|) == [];
      assert arrived' == reached;
    } else {
      var before, answer := answers'[..|answers'| - 1], answers'[|answers'| - 1];
      assert before + [answer] == answers';
      BroughtMore(content, before, answer, |middle|);
      ReceivedThen(content, answers, arrived, middle, reached, before, reached + Brought(content, before, |middle|));
      Regroup(reached, Brought(content, before, |middle|), content(answer));
      ReceivedMore(content, answers, arrived, before, reached + Brought(content, before, |middle|), answer);
    }
  }

  /** With these answers, the reader still needs another: what it has, `ahead` included, is not enough, and
      the last answer does not end the read. */
  ghost predicate Needy<A, T>(content: A -> seq<T>, ends: A -> bool, enough: seq<T> -> bool, ahead: seq<T>,
                              answers: seq<A>, from: nat) {
    !enough(ahead + Brought(content, answers, from)) && (|answers| > from ==> !ends(answers[|answers| - 1]))
  }

  /** It asked for every answer behind the first `from` because it needed it. */
  ghost predicate AllNeeded<A, T>(content: A -> seq<T>, ends: A -> bool, enough: seq<T> -> bool, ahead: seq<T>,
                                  answers: seq<A>, from: nat) {
    forall k :: from <= k < |answers| ==> Needy(content, ends, enough, ahead, answers[..k], from)
  }

  lemma NeededMore<A, T>(content: A -> seq<T>, ends: A -> bool, enough: seq<T> -> bool, ahead: seq<T>,
                         answers: seq<A>, answer: A, from: nat)
    requires from <= |answers| && AllNeeded(content, ends, enough, ahead, answers, from)
    requires Needy(content, ends, enough, ahead, answers, from)
    ensures AllNeeded(content, ends, enough, ahead, answers + [answer], from)
  {
    var more := answers + [answer];
    forall k | from <= k < |more| ensures Needy(content, ends, enough, ahead, more[..k], from) {
      assert more[..k] == answers[..k];
      assert answers[..|answers|] == answers;
    }
  }
}
