/** Effects of stories on cars: a stack per car, and the board that keeps it in step with conditions. */
module Storyboard {
  import opened Sequences

  type StoryId = nat
  type CarId = nat

  datatype Effect = Effect(id: nat, story: StoryId, car: CarId)

  // ---- stacks as sequences, bottom first ----

  /** All effects of other stories, in order. */
  function Others(s: seq<Effect>, story: StoryId): seq<Effect> {
    if s == [] then []
    else
      var rest := Others(s[..|s| - 1], story);
      if s[|s| - 1].story == story then rest else rest + [s[|s| - 1]]
  }

  function OfStory(s: seq<Effect>, story: StoryId): seq<Effect> {
    if s == [] then []
    else if s[0].story == story then [s[0]] + OfStory(s[1..], story)
    else OfStory(s[1..], story)
  }

  function Members(s: seq<Effect>): set<Effect> {
    set e | e in s
  }

  ghost predicate HasStory(s: seq<Effect>, story: StoryId) {
    exists e :: e in s && e.story == story
  }

  /** Effects of other stories lie both below and above position j. */
  ghost predicate Sandwiched(s: seq<Effect>, j: nat, story: StoryId) {
    && j < |s| && s[j].story == story
    && (exists i :: 0 <= i < j && s[i].story != story)
    && (exists k :: j < k < |s| && s[k].story != story)
  }

  ghost predicate NoneSandwiched(s: seq<Effect>, story: StoryId) {
    forall j: nat :: !Sandwiched(s, j, story)
  }

  lemma {:induction false} OthersMembers(s: seq<Effect>, story: StoryId)
    ensures forall e :: e in Others(s, story) <==> e in s && e.story != story
  {
    if s != [] {
      var m := |s| - 1;
      OthersMembers(s[..m], story);
      assert s == s[..m] + [s[m]];
    }
  }

  lemma {:induction false} OthersDistinct(s: seq<Effect>, story: StoryId)
    requires Distinct(s)
    ensures Distinct(Others(s, story))
  {
    if s != [] {
      var m := |s| - 1;
      OthersDistinct(s[..m], story);
      OthersMembers(s[..m], story);
    }
  }

  lemma OthersSnoc(s: seq<Effect>, p: nat, story: StoryId)
    requires p < |s|
    ensures Others(s[..p + 1], story) == Others(s[..p], story) + (if s[p].story == story then [] else [s[p]])
  {
    assert s[..p + 1][..p] == s[..p];
  }

  // ---- the stack ----

  class EffectStack {
    var effects: seq<Effect>
    ghost var inForce: set<Effect>  // effects currently applied to the car

    ghost predicate Valid()
      reads this
    {
      Distinct(effects)
    }

    ghost predicate AllInForce()
      reads this
    {
      forall e :: e in effects ==> e in inForce
    }

    constructor ()
      ensures Valid() && effects == [] && inForce == {}
    {
      effects, inForce := [], {};
    }

    method AddEffect(e: Effect)
      requires Valid()
      modifies this
      ensures Valid()
      ensures effects == if e in old(effects) then old(effects) else old(effects) + [e]
      ensures inForce == if e in old(effects) then old(inForce) else old(inForce) + {e}
    {
      if e !in effects {
        inForce := inForce + {e};
        effects := effects + [e];
      }
    }

    method IsStoryOnStack(story: StoryId) returns (found: bool)
      ensures found <==> HasStory(effects, story)
    {
      for n := 0 to |effects|
        invariant forall k :: 0 <= k < n ==> effects[k].story != story
      {
        if effects[n].story == story {
          return true;
        }
      }
      found := false;
    }

    /** Takes the effect out, wherever it is; the others keep their order. */
    method RemoveEffect(e: Effect)
      requires Valid()
      modifies this
      ensures Valid()
      ensures e !in old(effects) ==> effects == old(effects) && inForce == old(inForce) + Members(effects)
      ensures e in old(effects) ==> exists i :: Removed(old(effects), old(inForce), effects, inForce, e, i)
    {
      if effects != [] && effects[|effects| - 1] == e {
        ghost var i := |effects| - 1;
        inForce := inForce - {e};
        effects := effects[..|effects| - 1];
        assert Removed(old(effects), old(inForce), effects, inForce, e, i);
      } else {
        RemoveFromMiddle(e);
      }
    }

    /**
     * Unwinds the stack down to the effect and takes it out. The unwound effects come into force
     * again only if the removed one lay at the very bottom, since the replay loop never counts.
     */
    method RemoveFromMiddle(e: Effect)
      requires Valid() && (effects != [] ==> effects[|effects| - 1] != e)
      modifies this
      ensures Valid()
      ensures e !in old(effects) ==> effects == old(effects) && inForce == old(inForce) + Members(effects)
      ensures e in old(effects) ==> exists i :: Removed(old(effects), old(inForce), effects, inForce, e, i)
    {
      ghost var before := effects;
      var removedEffects, at := Unwind(e);
      Replay(removedEffects);
      if at > 0 {
        assert Removed(before, old(inForce), effects, inForce, e, at - 1);
      } else {
        assert before[0..] == before;
      }
    }

    /** Takes effects out of force from the top down to `e`, and removes `e` from the stack. */
    method Unwind(e: Effect) returns (removedEffects: nat, ghost at: nat)
      requires Valid()
      modifies this
      ensures Valid() && at <= |old(effects)|
      ensures forall k :: at <= k < |old(effects)| ==> old(effects)[k] != e
      ensures at == 0 ==> effects == old(effects) && removedEffects == |effects|
      ensures at == 0 ==> inForce == old(inForce) - Members(effects)
      ensures at > 0 ==> old(effects)[at - 1] == e && effects == old(effects)[..at - 1] + old(effects)[at..]
      ensures at > 0 ==> removedEffects == |old(effects)| - at && inForce == old(inForce) - Members(old(effects)[at - 1..])
    {
      ghost var before := effects;
      removedEffects := 0;
      var ef := |effects|;
      while ef > 0
        modifies this
        invariant 0 <= ef <= |before| && effects == before && removedEffects == |before| - ef
        invariant forall k :: ef <= k < |before| ==> before[k] != e
        invariant inForce == old(inForce) - Members(before[ef..])
      {
        assert before[ef - 1..] == [before[ef - 1]] + before[ef..];
        inForce := inForce - {effects[ef - 1]};
        if effects[ef - 1] == e {
          effects := effects[..ef - 1] + effects[ef..];
          at := ef;
          return;
        }
        removedEffects := removedEffects + 1;
        ef := ef - 1;
      }
      at := 0;
      assert before[0..] == before;
    }

    /** Applies all effects again, but only if everything on the stack had been unwound. */
    method Replay(removedEffects: nat)
      requires removedEffects <= |effects|
      modifies `inForce
      ensures inForce == if |effects| == removedEffects then old(inForce) + Members(effects) else old(inForce)
    {
      var effectCount := 0;
      for n := 0 to |effects|
        invariant effectCount == 0
        invariant inForce == if |effects| == removedEffects then old(inForce) + Members(effects[..n]) else old(inForce)
      {
        assert effects[..n + 1] == effects[..n] + [effects[n]];
        if effectCount >= |effects| - removedEffects {
          inForce := inForce + {effects[n]};
        }
      }
      assert effects[..|effects|] == effects;
    }

    /**
     * Removes all effects of a story. What remains are exactly the other effects in order. One of them is in
     * force afterwards unless it lay above a removed effect that itself lay above a remaining one; in particular
     * all stay in force if and only if none of the removed effects lay between two others.
     */
    method RemoveEffectsByStory(story: StoryId)
      requires Valid()
      modifies this
      ensures Valid() && effects == Others(old(effects), story) && !HasStory(effects, story)
      ensures InForceAfter(old(effects), |old(effects)|, story, old(inForce), inForce)
      ensures old(AllInForce()) ==> (AllInForce() <==> NoneSandwiched(old(effects), story))
    {
      ghost var s, before := effects, inForce;
      var tmp := CollectStory(story);
      NothingYet(s, story, inForce);
      ghost var p := RemoveAll(tmp, s, story, before);
      AllSkipped(s, p, story, effects, before, inForce);
      if forall e :: e in s ==> e in before {
        AllInForceIff(s, story, before, inForce);
      }
    }

    method RemoveAll(tmp: seq<Effect>, ghost s: seq<Effect>, story: StoryId, ghost before: set<Effect>) returns (ghost p: nat)
      requires Valid() && effects == s && OfStory(s, story) == tmp
      requires s[0..] == s == Others(s[..0], story) + s[0..]
      requires InForceAfter(s, 0, story, before, inForce)
      modifies this
      ensures Valid() && p <= |s| && OfStory(s[p..], story) == []
      ensures effects == Others(s[..p], story) + s[p..]
      ensures InForceAfter(s, p, story, before, inForce)
    {
      p := 0;
      for n := 0 to |tmp|
        invariant Valid() && p <= |s| && OfStory(s[p..], story) == tmp[n..]
        invariant effects == Others(s[..p], story) + s[p..]
        invariant InForceAfter(s, p, story, before, inForce)
      {
        p := RemoveNext(tmp[n], s, p, story, tmp[n..], before);
      }
    }

    /** Removes the story's next effect; p counts the original effects that have been dealt with. */
    method RemoveNext(e: Effect, ghost s: seq<Effect>, ghost p: nat, story: StoryId, ghost rest: seq<Effect>,
                      ghost before: set<Effect>) returns (ghost next: nat)
      requires Valid() && Distinct(s) && p <= |s| && rest != [] && rest[0] == e && OfStory(s[p..], story) == rest
      requires effects == Others(s[..p], story) + s[p..]
      requires InForceAfter(s, p, story, before, inForce)
      modifies this
      ensures Valid() && next <= |s| && OfStory(s[next..], story) == rest[1..]
      ensures effects == Others(s[..next], story) + s[next..]
      ensures InForceAfter(s, next, story, before, inForce)
    {
      ghost var q := Skip(s, p, story, rest, effects, before, inForce);
      ghost var stack, forceful := effects, inForce;
      RemoveEffect(e);
      ghost var i :| Removed(stack, forceful, effects, inForce, s[q], i);
      NextRemoved(s, q, story, before, stack, forceful, effects, inForce, i);
      next := q + 1;
    }

    method CollectStory(story: StoryId) returns (tmp: seq<Effect>)
      ensures tmp == OfStory(effects, story)
    {
      tmp := [];
      assert effects[0..] == effects;
      for n := 0 to |effects|
        invariant OfStory(effects, story) == tmp + OfStory(effects[n..], story)
      {
        assert effects[n..][1..] == effects[n + 1..];
        if effects[n].story == story {
          tmp := tmp + [effects[n]];
        }
      }
    }
  }

  /** Effects of other stories lie below position q. */
  ghost predicate OthersBelow(s: seq<Effect>, q: nat, story: StoryId)
    requires q <= |s|
  {
    exists i :: 0 <= i < q && s[i].story != story
  }

  /** An effect of the story at position q below j is taken out from above an effect of another story. */
  ghost predicate CutAt(s: seq<Effect>, q: nat, j: nat, story: StoryId) {
    q < j < |s| && s[q].story == story && OthersBelow(s, q, story)
  }

  /** Position j lies above such an effect, of those below position p. */
  ghost predicate Cut(s: seq<Effect>, p: nat, j: nat, story: StoryId) {
    exists q: nat :: q < p && CutAt(s, q, j, story)
  }

  /**
   * Is the effect at position j in force once the story's effects below position p are gone? Taking out the
   * effect at the very bottom applies all others again, whether they had been in force or not.
   */
  ghost predicate Alive(s: seq<Effect>, p: nat, j: nat, story: StoryId, before: set<Effect>)
    requires j < |s|
  {
    && (s[j].story == story ==> j >= p)
    && !Cut(s, p, j, story)
    && (s[j] in before || (p > 0 && j > 0 && s[0].story == story))
  }

  /** With the story's effects below position p gone, exactly these are in force; all off the stack are as before. */
  ghost predicate InForceAfter(s: seq<Effect>, p: nat, story: StoryId, before: set<Effect>, inForce: set<Effect>) {
    && (forall j: nat :: j < |s| ==> (s[j] in inForce <==> Alive(s, p, j, story, before)))
    && (forall e :: e !in s ==> (e in inForce <==> e in before))
  }

  /** All others are in force at the end exactly if no removed effect lay between two of them. */
  lemma AllInForceIff(s: seq<Effect>, story: StoryId, before: set<Effect>, inForce: set<Effect>)
    requires InForceAfter(s, |s|, story, before, inForce) && forall e :: e in s ==> e in before
    ensures (forall e :: e in Others(s, story) ==> e in inForce) <==> NoneSandwiched(s, story)
  {
    OthersMembers(s, story);
    if NoneSandwiched(s, story) {
      forall j: nat | j < |s| && s[j].story != story ensures !Cut(s, |s|, j, story) {
        forall q: nat ensures !CutAt(s, q, j, story) {
          assert !Sandwiched(s, q, story);
        }
      }
    } else {
      var q: nat :| Sandwiched(s, q, story);
      var k :| q < k < |s| && s[k].story != story;
      assert CutAt(s, q, k, story);
      assert s[k] in s && s[k] !in inForce;
    }
  }

  lemma NextOfStory(s: seq<Effect>, p: nat, story: StoryId) returns (q: nat)
    requires p <= |s| && OfStory(s[p..], story) != []
    ensures p <= q < |s| && s[q].story == story && OfStory(s[p..], story) == OfStory(s[q..], story)
    ensures forall k :: p <= k < q ==> s[k].story != story
  {
    q := p;
    while s[q].story != story
      invariant p <= q < |s| && OfStory(s[p..], story) == OfStory(s[q..], story)
      invariant forall k :: p <= k < q ==> s[k].story != story
      decreases |s| - q
    {
      assert s[q..][1..] == s[q + 1..];
      q := q + 1;
    }
  }

  lemma NothingYet(s: seq<Effect>, story: StoryId, inForce: set<Effect>)
    ensures s[0..] == s == Others(s[..0], story) + s[0..]
    ensures InForceAfter(s, 0, story, inForce, inForce)
  {
  }

  /** Moves on to the story's next effect, which is the first of those still to be removed. */
  lemma Skip(s: seq<Effect>, p: nat, story: StoryId, rest: seq<Effect>, effects: seq<Effect>, before: set<Effect>,
             inForce: set<Effect>) returns (q: nat)
    requires p <= |s| && OfStory(s[p..], story) == rest != []
    requires effects == Others(s[..p], story) + s[p..]
    requires InForceAfter(s, p, story, before, inForce)
    ensures q < |s| && s[q].story == story && s[q] == rest[0] && s[q] in effects
    ensures OfStory(s[q + 1..], story) == rest[1..]
    ensures effects == Others(s[..q], story) + s[q..]
    ensures InForceAfter(s, q, story, before, inForce)
  {
    q := NextOfStory(s, p, story);
    SkipOthers(s, p, q, story, before, inForce);
    OthersRange(s, p, q, story);
    Rejoin(s, p, q, Others(s[..p], story));
    assert s[q..][1..] == s[q + 1..];
    assert effects[|Others(s[..q], story)|] == s[q];
  }

  lemma Rejoin(s: seq<Effect>, p: nat, q: nat, below: seq<Effect>)
    requires p <= q <= |s|
    ensures below + s[p..] == below + s[p..q] + s[q..]
  {
  }

  /** When none of the story's effects is left, the stack holds exactly the others. */
  lemma AllSkipped(s: seq<Effect>, p: nat, story: StoryId, effects: seq<Effect>, before: set<Effect>, inForce: set<Effect>)
    requires p <= |s| && OfStory(s[p..], story) == [] && effects == Others(s[..p], story) + s[p..]
    requires InForceAfter(s, p, story, before, inForce)
    ensures effects == Others(s, story) && !HasStory(effects, story)
    ensures InForceAfter(s, |s|, story, before, inForce)
  {
    NoneLeft(s[p..], story);
    assert forall k :: p <= k < |s| ==> s[k] == s[p..][k - p];
    OthersRange(s, p, |s|, story);
    assert s[..|s|] == s && s[p..|s|] == s[p..];
    OthersMembers(s, story);
    SkipOthers(s, p, |s|, story, before, inForce);
  }

  lemma {:induction false} NoneLeft(s: seq<Effect>, story: StoryId)
    requires OfStory(s, story) == []
    ensures forall k :: 0 <= k < |s| ==> s[k].story != story
  {
    if s != [] {
      NoneLeft(s[1..], story);
      assert forall k :: 0 < k < |s| ==> s[k] == s[1..][k - 1];
    }
  }

  lemma {:induction false} OthersRange(s: seq<Effect>, p: nat, q: nat, story: StoryId)
    requires p <= q <= |s| && forall k :: p <= k < q ==> s[k].story != story
    ensures Others(s[..q], story) == Others(s[..p], story) + s[p..q]
    decreases q
  {
    if p < q {
      OthersRange(s, p, q - 1, story);
      OthersSnoc(s, q - 1, story);
    }
  }

  lemma SkipOthers(s: seq<Effect>, p: nat, q: nat, story: StoryId, before: set<Effect>, inForce: set<Effect>)
    requires p <= q <= |s| && forall k :: p <= k < q ==> s[k].story != story
    requires InForceAfter(s, p, story, before, inForce)
    ensures InForceAfter(s, q, story, before, inForce)
  {
    forall j: nat | j < |s| ensures Alive(s, p, j, story, before) <==> Alive(s, q, j, story, before) {
      forall k: nat | p <= k < q ensures !CutAt(s, k, j, story) {
      }
    }
  }

  /** Removing the story's next effect: stack contents, and which effects stay in force. */
  lemma NextRemoved(s: seq<Effect>, p: nat, story: StoryId, before: set<Effect>, stack: seq<Effect>, forceful: set<Effect>,
                    after: seq<Effect>, inForce: set<Effect>, i: nat)
    requires Distinct(s) && Distinct(stack) && p < |s| && s[p].story == story
    requires stack == Others(s[..p], story) + s[p..]
    requires Removed(stack, forceful, after, inForce, s[p], i)
    requires InForceAfter(s, p, story, before, forceful)
    ensures after == Others(s[..p + 1], story) + s[p + 1..]
    ensures InForceAfter(s, p + 1, story, before, inForce)
  {
    RemovedFromStack(s, p, story, stack, forceful, after, inForce, i);
    if p == |s| - 1 {
      TopRemoved(s, p, story, before, forceful, inForce);
    } else if OthersBelow(s, p, story) {
      MiddleRemoved(s, p, story, before, forceful, inForce);
    } else {
      BottomRemoved(s, p, story, before, forceful, inForce);
    }
  }

  /** A removal from the remaining stack, in terms of the original one. */
  lemma RemovedFromStack(s: seq<Effect>, p: nat, story: StoryId, stack: seq<Effect>, forceful: set<Effect>,
                         after: seq<Effect>, inForce: set<Effect>, i: nat)
    requires Distinct(stack) && p < |s| && s[p].story == story
    requires stack == Others(s[..p], story) + s[p..]
    requires Removed(stack, forceful, after, inForce, s[p], i)
    ensures after == Others(s[..p + 1], story) + s[p + 1..]
    ensures inForce ==
      if p == |s| - 1 then forceful - {s[p]}
      else if OthersBelow(s, p, story) then forceful - Members(s[p..])
      else (forceful - Members(s[p..])) + Members(s[p + 1..])
  {
    var below := Others(s[..p], story);
    assert stack[|below|] == s[p] && i == |below|;
    OthersSnoc(s, p, story);
    assert stack[i + 1..] == s[p + 1..] && stack[..i] == below && stack[i..] == s[p..];
    BelowIsEmpty(s, p, story);
    if below == [] {
      assert stack == s[p..] && after == s[p + 1..];
    }
  }

  lemma BelowIsEmpty(s: seq<Effect>, p: nat, story: StoryId)
    requires p <= |s|
    ensures Others(s[..p], story) == [] <==> !OthersBelow(s, p, story)
  {
    var below := Others(s[..p], story);
    OthersMembers(s[..p], story);
    if OthersBelow(s, p, story) {
      var i :| 0 <= i < p && s[i].story != story;
      assert s[..p][i] in below;
    }
    if below != [] {
      assert below[0] in s[..p] && below[0].story != story;
      var i :| 0 <= i < p && s[..p][i] == below[0];
      assert s[i].story != story;
    }
  }

  /** One more removed effect cuts off what lies above it, if anything of another story lies below. */
  lemma CutNext(s: seq<Effect>, p: nat, j: nat, story: StoryId)
    requires p < |s|
    ensures Cut(s, p + 1, j, story) <==> Cut(s, p, j, story) || CutAt(s, p, j, story)
  {
  }

  lemma InUpperPart(s: seq<Effect>, p: nat, j: nat)
    requires Distinct(s) && p <= |s| && j < |s|
    ensures s[j] in Members(s[p..]) <==> j >= p
  {
    if j >= p {
      assert s[p..][j - p] == s[j];
    }
  }

  /** Effects below the removed one are not affected, the removed one is out. */
  lemma AliveBelow(s: seq<Effect>, p: nat, j: nat, story: StoryId, before: set<Effect>)
    requires j <= p < |s| && s[p].story == story
    ensures j < p ==> (Alive(s, p + 1, j, story, before) <==> Alive(s, p, j, story, before))
    ensures j == p ==> !Alive(s, p + 1, j, story, before)
  {
    CutNext(s, p, j, story);
  }

  lemma TopRemoved(s: seq<Effect>, p: nat, story: StoryId, before: set<Effect>, forceful: set<Effect>, inForce: set<Effect>)
    requires Distinct(s) && p == |s| - 1 && s[p].story == story && inForce == forceful - {s[p]}
    requires InForceAfter(s, p, story, before, forceful)
    ensures InForceAfter(s, p + 1, story, before, inForce)
  {
    forall j: nat | j < |s| ensures s[j] in inForce <==> Alive(s, p + 1, j, story, before) {
      AliveBelow(s, p, j, story, before);
      assert s[j] in inForce <==> s[j] in forceful && j != p;
    }
  }

  lemma BottomRemoved(s: seq<Effect>, p: nat, story: StoryId, before: set<Effect>, forceful: set<Effect>, inForce: set<Effect>)
    requires Distinct(s) && p < |s| && s[p].story == story && !OthersBelow(s, p, story)
    requires inForce == (forceful - Members(s[p..])) + Members(s[p + 1..])
    requires InForceAfter(s, p, story, before, forceful)
    ensures InForceAfter(s, p + 1, story, before, inForce)
  {
    forall j: nat | j < |s| ensures s[j] in inForce <==> Alive(s, p + 1, j, story, before) {
      InUpperPart(s, p, j);
      InUpperPart(s, p + 1, j);
      if j <= p {
        AliveBelow(s, p, j, story, before);
      } else {
        forall q: nat | q < p + 1 ensures !CutAt(s, q, j, story) {
        }
      }
    }
  }

  lemma MiddleRemoved(s: seq<Effect>, p: nat, story: StoryId, before: set<Effect>, forceful: set<Effect>, inForce: set<Effect>)
    requires Distinct(s) && p < |s| && s[p].story == story && OthersBelow(s, p, story)
    requires inForce == forceful - Members(s[p..])
    requires InForceAfter(s, p, story, before, forceful)
    ensures InForceAfter(s, p + 1, story, before, inForce)
  {
    forall j: nat | j < |s| ensures s[j] in inForce <==> Alive(s, p + 1, j, story, before) {
      InUpperPart(s, p, j);
      if j <= p {
        AliveBelow(s, p, j, story, before);
      } else {
        CutNext(s, p, j, story);
      }
    }
  }

  /** What removing the effect at position i does to the stack and to the effects in force. */
  ghost predicate Removed(before: seq<Effect>, inForceBefore: set<Effect>, after: seq<Effect>, inForceAfter: set<Effect>,
                          e: Effect, i: nat) {
    && i < |before| && before[i] == e
    && after == before[..i] + before[i + 1..]
    && inForceAfter ==
       if i == |before| - 1 then inForceBefore - {e}
       else if i == 0 then (inForceBefore - Members(before)) + Members(after)
       else inForceBefore - Members(before[i..])
  }

  // ---- the board ----

  /** A story with the number of effects that it creates for a car. */
  datatype Story = Story(id: StoryId, factories: nat)

  /** Effects that one application of a story creates, numbered consecutively. */
  function NewEffects(from: nat, count: nat, story: StoryId, car: CarId): seq<Effect> {
    seq(count, n requires 0 <= n < count => Effect(from + n, story, car))
  }

  /** A held condition adds the story's effects on top unless they are there; a failed one takes them out. */
  function StackAfter(s: seq<Effect>, condition: bool, story: Story, car: CarId, from: nat): seq<Effect> {
    if !condition then Others(s, story.id)
    else if exists e :: e in s && e.story == story.id then s
    else s + NewEffects(from, story.factories, story.id, car)
  }

  ghost function EffectsOf(s: seq<Effect>, story: StoryId): set<Effect> {
    set e | e in s && e.story == story
  }

  lemma {:induction false} NewEffectsCount(from: nat, count: nat, story: StoryId, car: CarId)
    ensures |EffectsOf(NewEffects(from, count, story, car), story)| == count
  {
    var news := NewEffects(from, count, story, car);
    if count > 0 {
      var last := Effect(from + count - 1, story, car);
      var earlier := NewEffects(from, count - 1, story, car);
      NewEffectsCount(from, count - 1, story, car);
      assert news == earlier + [last];
      assert EffectsOf(news, story) == EffectsOf(earlier, story) + {last};
    } else {
      assert EffectsOf(news, story) == {};
    }
  }

  /** A story is on the stack with all its effects or not at all. */
  ghost predicate Complete(s: seq<Effect>, story: Story) {
    |EffectsOf(s, story.id)| == 0 || |EffectsOf(s, story.id)| == story.factories
  }

  /** Bringing one story in line puts all its effects there or none, and leaves all other stories as they are. */
  lemma StackAfterStories(s: seq<Effect>, condition: bool, story: Story, car: CarId, from: nat)
    requires Complete(s, story)
    ensures var after := StackAfter(s, condition, story, car, from);
      && |EffectsOf(after, story.id)| == (if condition then story.factories else 0)
      && forall t :: t != story.id ==> EffectsOf(after, t) == EffectsOf(s, t)
  {
    OthersMembers(s, story.id);
    var news := NewEffects(from, story.factories, story.id, car);
    NewEffectsCount(from, story.factories, story.id, car);
    if !condition {
      assert EffectsOf(Others(s, story.id), story.id) == {};
    } else if exists e :: e in s && e.story == story.id {
      var e :| e in s && e.story == story.id;
      assert e in EffectsOf(s, story.id);
    } else {
      assert EffectsOf(s + news, story.id) == EffectsOf(news, story.id);
    }
  }

  /** Of the given stories, exactly those whose condition holds for the car are on the stack, with all effects. */
  ghost predicate Settled(s: seq<Effect>, stories: seq<Story>, car: CarId, test: (CarId, StoryId) -> bool) {
    forall x :: x in stories ==> |EffectsOf(s, x.id)| == if test(car, x.id) then x.factories else 0
  }

  lemma SettleNext(s: seq<Effect>, stories: seq<Story>, n: nat, car: CarId, test: (CarId, StoryId) -> bool, from: nat)
    requires n < |stories| && forall i, j :: 0 <= i < j < |stories| ==> stories[i].id != stories[j].id
    requires Settled(s, stories[..n], car, test) && forall x :: x in stories ==> Complete(s, x)
    ensures var after := StackAfter(s, test(car, stories[n].id), stories[n], car, from);
      Settled(after, stories[..n + 1], car, test) && forall x :: x in stories ==> Complete(after, x)
  {
    StackAfterStories(s, test(car, stories[n].id), stories[n], car, from);
    forall x | x in stories && x != stories[n] ensures x.id != stories[n].id {
    }
    forall x | x in stories[..n + 1] && x != stories[n] ensures x in stories[..n] && x in stories {
      var i :| 0 <= i <= n && stories[i] == x;
      assert stories[..n][i] == x;
    }
  }

  lemma {:induction false} OthersUnchanged(s: seq<Effect>, story: StoryId)
    ensures !HasStory(s, story) ==> Others(s, story) == s
  {
    if s != [] {
      var m := |s| - 1;
      OthersUnchanged(s[..m], story);
      assert s == s[..m] + [s[m]];
    }
  }

  class Board {
    var stories: seq<Story>
    var vehicles: set<CarId>
    var affectedCars: map<CarId, EffectStack>
    var created: nat  // identity of the next effect

    ghost predicate Valid()
      reads this, affectedCars.Values
    {
      && (forall i, j :: 0 <= i < j < |stories| ==> stories[i].id != stories[j].id)
      && (forall c, x :: x in stories ==> Complete(StackOf(c), x))
      && StacksValid()
    }

    ghost predicate StacksValid()
      reads `affectedCars, `created, affectedCars.Values
    {
      && (forall a, b :: a in affectedCars && b in affectedCars && a != b ==> affectedCars[a] != affectedCars[b])
      && (forall c :: c in affectedCars ==> affectedCars[c].Valid() && Older(affectedCars[c].effects, created))
    }

    /** The effects on a car, bottom first; a car without a stack has none. */
    ghost function StackOf(car: CarId): seq<Effect>
      reads `affectedCars, affectedCars.Values
    {
      if car in affectedCars then affectedCars[car].effects else []
    }

    ghost predicate OnStack(car: CarId, story: StoryId)
      reads `affectedCars, affectedCars.Values
    {
      HasStory(StackOf(car), story)
    }

    /** Exactly the stories whose condition holds for the car are on its stack. */
    ghost predicate InLine(car: CarId, test: (CarId, StoryId) -> bool)
      reads `stories, `affectedCars, affectedCars.Values
    {
      Settled(StackOf(car), stories, car, test)
    }

    constructor (stories: seq<Story>)
      requires forall i, j :: 0 <= i < j < |stories| ==> stories[i].id != stories[j].id
      ensures Valid() && affectedCars == map[] && this.stories == stories && vehicles == {}
    {
      this.stories := stories;
      vehicles, affectedCars, created := {}, map[], 0;
    }

    method StoryApplied(car: CarId, story: StoryId) returns (applied: bool)
      ensures applied <==> OnStack(car, story)
    {
      if car !in affectedCars {
        applied := false;
      } else {
        applied := affectedCars[car].IsStoryOnStack(story);
      }
    }

    /** Puts all effects of a story on a car's stack; finding the story there already is an error. */
    method AddEffects(car: CarId, story: Story) returns (twice: bool)
      requires StacksValid()
      modifies `affectedCars, `created, affectedCars.Values
      ensures StacksValid() && fresh(affectedCars.Values - old(affectedCars.Values))
      ensures twice <==> old(OnStack(car, story.id))
      ensures !twice ==> StackOf(car) == old(StackOf(car)) + NewEffects(old(created), story.factories, story.id, car)
      ensures !twice ==>
        var before, after := old(StackOf(car)), StackOf(car);
        && |after| == |before| + story.factories && after[..|before|] == before && Distinct(after)
        && forall i :: |before| <= i < |after| ==> after[i].story == story.id && after[i].car == car
      ensures !twice ==> car in affectedCars
      ensures !twice ==>
        forall i :: |old(StackOf(car))| <= i < |StackOf(car)| ==> StackOf(car)[i] in affectedCars[car].inForce
      ensures twice ==> StackOf(car) == old(StackOf(car))
      ensures forall c :: c != car ==> StackOf(c) == old(StackOf(c))
    {
      twice := StoryApplied(car, story.id);
      if twice {
        return;
      }
      if car !in affectedCars {
        var stack := new EffectStack();
        affectedCars := affectedCars[car := stack];
      }
      PushEffects(affectedCars[car], car, story);
    }

    method PushEffects(stack: EffectStack, car: CarId, story: Story)
      requires StacksValid() && car in affectedCars && stack == affectedCars[car]
      modifies stack, `created
      ensures StacksValid()
      ensures StackOf(car) == old(StackOf(car)) + NewEffects(old(created), story.factories, story.id, car)
      ensures forall i :: |old(stack.effects)| <= i < |stack.effects| ==> stack.effects[i] in stack.inForce
      ensures forall c :: c != car ==> StackOf(c) == old(StackOf(c))
    {
      for n := 0 to story.factories
        invariant stack.Valid() && created == old(created) + n && Older(stack.effects, created)
        invariant stack.effects == old(stack.effects) + NewEffects(old(created), n, story.id, car)
        invariant forall i :: |old(stack.effects)| <= i < |stack.effects| ==> stack.effects[i] in stack.inForce
      {
        var effect := Effect(created, story.id, car);
        assert effect !in stack.effects;
        assert NewEffects(old(created), n + 1, story.id, car) == NewEffects(old(created), n, story.id, car) + [effect];
        stack.AddEffect(effect);
        created := created + 1;
      }
    }

    method RemoveStory(car: CarId, story: StoryId)
      requires StacksValid() && car in affectedCars
      modifies affectedCars[car]
      ensures StacksValid() && StackOf(car) == Others(old(StackOf(car)), story)
      ensures forall c :: c != car ==> StackOf(c) == old(StackOf(c))
    {
      OthersMembers(affectedCars[car].effects, story);
      affectedCars[car].RemoveEffectsByStory(story);
    }

    /** Brings one story on one car in line with the outcome of its condition. */
    method CheckCar(car: CarId, condition: bool, story: Story) returns (twice: bool)
      requires StacksValid()
      modifies `affectedCars, `created, affectedCars.Values
      ensures StacksValid() && fresh(affectedCars.Values - old(affectedCars.Values)) && !twice
      ensures StackOf(car) == StackAfter(old(StackOf(car)), condition, story, car, old(created))
      ensures condition && old(OnStack(car, story.id)) ==> StackOf(car) == old(StackOf(car))
      ensures condition && !old(OnStack(car, story.id)) ==>
        var before, after := old(StackOf(car)), StackOf(car);
        && |after| == |before| + story.factories && after[..|before|] == before && Distinct(after)
        && forall i :: |before| <= i < |after| ==> after[i].story == story.id && after[i].car == car
      ensures !condition ==>
        forall e :: e in StackOf(car) <==> e in old(StackOf(car)) && e.story != story.id
      ensures forall c :: c != car ==> StackOf(c) == old(StackOf(c))
    {
      twice := false;
      OthersUnchanged(StackOf(car), story.id);
      OthersMembers(StackOf(car), story.id);
      var applied := StoryApplied(car, story.id);
      if applied {
        if !condition {
          RemoveStory(car, story.id);
        }
      } else if condition {
        twice := AddEffects(car, story);
      }
    }

    /**
     * Tests every story on every car. Afterwards a story is on a car's stack, with exactly as many effects
     * as it has factories, if and only if its condition has just held; no story has been added twice.
     */
    method UpdateStoryboard(test: (CarId, StoryId) -> bool) returns (twice: bool)
      requires Valid()
      modifies `affectedCars, `created, affectedCars.Values
      ensures Valid() && fresh(affectedCars.Values - old(affectedCars.Values)) && !twice
      ensures forall car :: car in vehicles ==> InLine(car, test)
      ensures forall car, x :: car in vehicles && x in stories ==>
        |set e | e in StackOf(car) && e.story == x.id| == if test(car, x.id) then x.factories else 0
      ensures forall car :: car !in vehicles ==> StackOf(car) == old(StackOf(car))
    {
      twice := false;
      var rest := vehicles;
      while rest != {}
        invariant rest <= vehicles && Valid() && !twice
        invariant fresh(affectedCars.Values - old(affectedCars.Values))
        invariant forall car :: car in vehicles - rest ==> InLine(car, test)
        invariant forall car :: car !in vehicles ==> StackOf(car) == old(StackOf(car))
        decreases rest
      {
        var car :| car in rest;
        label before:
        twice := UpdateCar(car, test);
        forall c | c in vehicles - rest ensures InLine(c, test) {
          assert old@before(InLine(c, test)) && StackOf(c) == old@before(StackOf(c));
        }
        rest := rest - {car};
      }
    }

    method UpdateCar(car: CarId, test: (CarId, StoryId) -> bool) returns (twice: bool)
      requires Valid()
      modifies `affectedCars, `created, affectedCars.Values
      ensures Valid() && fresh(affectedCars.Values - old(affectedCars.Values)) && !twice
      ensures InLine(car, test)
      ensures forall c :: c != car ==> StackOf(c) == old(StackOf(c))
    {
      twice := false;
      for n := 0 to |stories|
        invariant StacksValid() && fresh(affectedCars.Values - old(affectedCars.Values)) && !twice
        invariant Settled(StackOf(car), stories[..n], car, test)
        invariant forall x :: x in stories ==> Complete(StackOf(car), x)
        invariant forall c :: c != car ==> StackOf(c) == old(StackOf(c))
      {
        assert stories[n] in stories;
        SettleNext(StackOf(car), stories, n, car, test, created);
        twice := CheckCar(car, test(car, stories[n].id), stories[n]);
      }
      assert stories[..|stories|] == stories;
    }
  }

  /** All effects on the stack were created before number n. */
  ghost predicate Older(s: seq<Effect>, n: nat) {
    forall e :: e in s ==> e.id < n
  }
}
