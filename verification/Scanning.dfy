/** A loop that visits positions of a buffer, moving on by at least one each time, and collects what it meets.

    visit says what happens at a position: by how much more than one the loop moves on, and what it collects.
 */
module Scanning {

  function Walk<B, W>(visit: (seq<B>, nat) -> (nat, seq<W>), buffer: seq<B>, i: nat): seq<W>
    decreases |buffer| - i
  {
    if i >= |buffer| then [] else visit(buffer, i).1 + Walk(visit, buffer, i + 1 + visit(buffer, i).0)
  }

  // The positions visited.
  function Stops<B, W>(visit: (seq<B>, nat) -> (nat, seq<W>), buffer: seq<B>, i: nat): seq<nat>
    decreases |buffer| - i
  {
    if i >= |buffer| then [] else [i] + Stops(visit, buffer, i + 1 + visit(buffer, i).0)
  }

  function Joined<B>(words: seq<seq<B>>): seq<B> {
    if words == [] then [] else words[0] + Joined(words[1..])
  }

  // Where each word begins when the first one is at position i.
  function Starts<B>(words: seq<seq<B>>, i: nat): (r: seq<nat>)
    ensures |r| == |words|
    decreases |words|
  {
    if words == [] then [] else [i] + Starts(words[1..], i + |words[0]|)
  }

  // A visit to the word steps over exactly the word and collects w.
  predicate TakesIn<B(==), W(==)>(visit: (seq<B>, nat) -> (nat, seq<W>), before: seq<B>, word: seq<B>, after: seq<B>,
                                  w: W) {
    word != [] && visit(before + word + after, |before|) == (|word| - 1, [w])
  }

  ghost predicate Takes<B(!new), W>(visit: (seq<B>, nat) -> (nat, seq<W>), word: seq<B>, w: W) {
    forall before, after :: TakesIn(visit, before, word, after, w)
  }

  // A visit depends on nothing before its position.
  ghost predicate Local<B(!new), W>(visit: (seq<B>, nat) -> (nat, seq<W>)) {
    forall before, buffer, i :: LocalAt(visit, before, buffer, i)
  }

  predicate LocalAt<B(==), W(==)>(visit: (seq<B>, nat) -> (nat, seq<W>), before: seq<B>, buffer: seq<B>, i: nat) {
    i < |buffer| ==> visit(before + buffer, |before| + i) == visit(buffer, i)
  }

  lemma Regroup<T>(a: seq<T>, b: seq<T>, c: seq<T>)
    ensures a + b + c == a + (b + c)
  {}

  // What has been collected and what is still to come make up the whole.
  lemma WalkOn<B, W>(visit: (seq<B>, nat) -> (nat, seq<W>), buffer: seq<B>, i: nat, seen: seq<W>)
    requires i < |buffer| && seen + Walk(visit, buffer, i) == Walk(visit, buffer, 0)
    ensures seen + visit(buffer, i).1 + Walk(visit, buffer, i + 1 + visit(buffer, i).0) == Walk(visit, buffer, 0)
  {
    Regroup(seen, visit(buffer, i).1, Walk(visit, buffer, i + 1 + visit(buffer, i).0));
  }

  lemma {:induction false} WalkBound<B, W>(visit: (seq<B>, nat) -> (nat, seq<W>), buffer: seq<B>, i: nat)
    requires forall b, k :: |visit(b, k).1| <= 1
    ensures |Walk(visit, buffer, i)| <= if i < |buffer| then |buffer| - i else 0
    decreases |buffer| - i
  {
    if i < |buffer| {
      WalkBound(visit, buffer, i + 1 + visit(buffer, i).0);
    }
  }

  lemma {:induction false} WalkSuffix<B(!new), W>(visit: (seq<B>, nat) -> (nat, seq<W>), before: seq<B>,
                                                  buffer: seq<B>, i: nat)
    requires Local(visit)
    ensures Walk(visit, before + buffer, |before| + i) == Walk(visit, buffer, i)
    decreases |buffer| - i
  {
    if i < |buffer| {
      assert LocalAt(visit, before, buffer, i);
      WalkSuffix(visit, before, buffer, i + 1 + visit(buffer, i).0);
    }
  }

  lemma WalkWord<B, W>(visit: (seq<B>, nat) -> (nat, seq<W>), before: seq<B>, word: seq<B>, after: seq<B>, w: W)
    requires TakesIn(visit, before, word, after, w)
    ensures var buffer, next := before + word + after, |before + word|;
            && Walk(visit, buffer, |before|) == [w] + Walk(visit, buffer, next)
            && Stops(visit, buffer, |before|) == [|before|] + Stops(visit, buffer, next)
  {}

  lemma JoinedOne<B>(before: seq<B>, words: seq<seq<B>>, after: seq<B>)
    requires words != []
    ensures before + Joined(words) == before + words[0] + Joined(words[1..])
    ensures before + Joined(words) + after == before + words[0] + (Joined(words[1..]) + after)
    ensures before + Joined(words) + after == before + words[0] + Joined(words[1..]) + after
  {
    Regroup(before, words[0], Joined(words[1..]));
    Regroup(before + words[0], Joined(words[1..]), after);
  }

  // Words that are taken whole are collected one by one, whatever stands before them and whatever comes after,
  // and the loop stops at the start of each and nowhere in between.
  lemma {:induction false} WalkWords<B(!new), W>(visit: (seq<B>, nat) -> (nat, seq<W>), before: seq<B>,
                                                 words: seq<seq<B>>, after: seq<B>, ws: seq<W>)
    requires |ws| == |words| && forall k :: 0 <= k < |words| ==> Takes(visit, words[k], ws[k])
    ensures var buffer, next := before + Joined(words) + after, |before + Joined(words)|;
            && Walk(visit, buffer, |before|) == ws + Walk(visit, buffer, next)
            && Stops(visit, buffer, |before|) == Starts(words, |before|) + Stops(visit, buffer, next)
    decreases |words|
  {
    if words == [] {
      assert before + Joined(words) == before;
    } else {
      var rest := Joined(words[1..]) + after;
      var buffer, next := before + Joined(words) + after, |before + Joined(words)|;
      JoinedOne(before, words, after);
      assert TakesIn(visit, before, words[0], rest, ws[0]);
      WalkWord(visit, before, words[0], rest, ws[0]);
      WalkWords(visit, before + words[0], words[1..], after, ws[1..]);
      Regroup([ws[0]], ws[1..], Walk(visit, buffer, next));
      Regroup([|before|], Starts(words[1..], |before + words[0]|), Stops(visit, buffer, next));
    }
  }

  // What comes after such words is collected as if it stood alone.
  lemma WalkThen<B(!new), W>(visit: (seq<B>, nat) -> (nat, seq<W>), words: seq<seq<B>>, after: seq<B>, ws: seq<W>)
    requires |ws| == |words| && forall k :: 0 <= k < |words| ==> Takes(visit, words[k], ws[k])
    requires Local(visit)
    ensures Walk(visit, Joined(words) + after, 0) == ws + Walk(visit, after, 0)
  {
    WalkWords(visit, [], words, after, ws);
    assert [] + Joined(words) == Joined(words);
    WalkSuffix(visit, Joined(words), after, 0);
  }
}
