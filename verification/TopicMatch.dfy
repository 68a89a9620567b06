// The topic matcher Client.matchTopic (mqtt/client.go) against the matching rules of MQTT 5.0 section 4.7.1.
module TopicMatch {
  import opened Primitives

  const SLASH := 0x2F
  const PLUS := 0x2B
  const HASH := 0x23

  // matchTopic answers, or indexes past the end of the topic.
  datatype Outcome = Matched | NotMatched | IndexPanic

  // ---------- Section 4.7.1: levels ----------

  // The levels of a topic name or filter: the parts between slashes.
  function Levels(s: Str): (ls: seq<Str>)
    ensures |ls| >= 1
  {
    if s == [] then [[]]
    else if s[0] == SLASH then [[]] + Levels(s[1..])
    else
      var ls := Levels(s[1..]);
      [[s[0]] + ls[0]] + ls[1..]
  }

  // Section 4.7.1.2 and 4.7.1.3: a wildcard occupies a whole level, and # only the last one. start says that f begins
  // a level.
  predicate ValidFrom(f: Str, start: bool) {
    if f == [] then true
    else if f[0] == HASH then start && |f| == 1
    else if f[0] == PLUS then start && (|f| == 1 || f[1] == SLASH) && ValidFrom(f[1..], false)
    else ValidFrom(f[1..], f[0] == SLASH)
  }

  predicate ValidFilter(f: Str) {
    ValidFrom(f, true)
  }

  predicate IsPlus(level: Str) {
    level == [PLUS]
  }

  predicate IsHash(level: Str) {
    level == [HASH]
  }

  // Level by level, # standing for one or more remaining levels.
  predicate LevelMatch(F: seq<Str>, T: seq<Str>) {
    if F == [] then T == []
    else if T == [] then false
    else if |F| == 1 && IsHash(F[0]) then true
    else (IsPlus(F[0]) || F[0] == T[0]) && LevelMatch(F[1..], T[1..])
  }

  // A filter ending in /# also matches the parent level.
  predicate ParentMatch(F: seq<Str>, T: seq<Str>) {
    |F| >= 2 && IsHash(F[|F| - 1]) && |T| == |F| - 1 && LevelMatch(F[..|F| - 1], T)
  }

  predicate StandardMatch(F: seq<Str>, T: seq<Str>) {
    LevelMatch(F, T) || ParentMatch(F, T)
  }

  // ---------- matchTopic ----------

  // Past the rest of the current level.
  function SkipLevel(t: Str, i: nat): (j: nat)
    requires i <= |t|
    ensures i <= j <= |t|
    ensures forall k :: i <= k < j ==> t[k] != SLASH
    ensures j < |t| ==> t[j] == SLASH
    decreases |t| - i
  {
    if i < |t| && t[i] != SLASH then SkipLevel(t, i + 1) else i
  }

  // The two-cursor loop of matchTopic from filterPos fp and topicPos tp.
  function Walk(t: Str, f: Str, fp: nat, tp: nat): Outcome
    requires fp <= |f| && tp <= |t|
    decreases |f| - fp
  {
    if fp == |f| then
      if |f| != |t| && tp < |t| then NotMatched else Matched
    else if f[fp] == HASH then
      if |f| == 1 then Matched
      else if (fp != 0 && f[fp - 1] != SLASH) || fp != |f| - 1 then NotMatched
      else Matched
    else if f[fp] == PLUS then
      if (fp != 0 && f[fp - 1] != SLASH) || (fp != |f| - 1 && f[fp + 1] != SLASH) then NotMatched
      else
        var next := SkipLevel(t, tp);
        if next == |t| then Matched else Walk(t, f, fp + 1, next)
    else if fp >= |t| then NotMatched
    else if tp >= |t| then IndexPanic
    else if f[fp] != t[tp] then NotMatched
    else Walk(t, f, fp + 1, tp + 1)
  }

  function MatchOutcome(topic: Str, filter: Str): Outcome {
    Walk(topic, filter, 0, 0)
  }

  method MatchTopic(topic: Str, filter: Str) returns (r: Outcome)
    ensures r == MatchOutcome(topic, filter)
  {
    var filterPos, topicPos := 0, 0;
    while filterPos < |filter|
      invariant filterPos <= |filter| && topicPos <= |topic|
      invariant Walk(topic, filter, filterPos, topicPos) == MatchOutcome(topic, filter)
    {
      if filter[filterPos] == HASH {
        if |filter| == 1 {
          return Matched;
        }
        if (filterPos != 0 && filter[filterPos - 1] != SLASH) || filterPos != |filter| - 1 {
          return NotMatched;
        }
        return Matched;
      } else if filter[filterPos] == PLUS {
        if (filterPos != 0 && filter[filterPos - 1] != SLASH)
           || (filterPos != |filter| - 1 && filter[filterPos + 1] != SLASH) {
          return NotMatched;
        }
        ghost var levelStart := topicPos;
        while topicPos < |topic| && topic[topicPos] != SLASH
          invariant levelStart <= topicPos <= |topic|
          invariant SkipLevel(topic, topicPos) == SkipLevel(topic, levelStart)
        {
          topicPos := topicPos + 1;
        }
        if topicPos == |topic| {
          return Matched;
        }
        filterPos := filterPos + 1;
        continue;
      } else if filterPos >= |topic| {
        return NotMatched;
      } else if topicPos >= |topic| {
        return IndexPanic;
      } else if filter[filterPos] != topic[topicPos] {
        return NotMatched;
      }
      filterPos := filterPos + 1;
      topicPos := topicPos + 1;
    }
    if |filter| != |topic| && topicPos < |topic| {
      return NotMatched;
    }
    return Matched;
  }

  // ---------- Levels, one byte at a time ----------

  // What is left of a topic behind its first level.
  function AfterLevel(t: Str): (u: Str) {
    t[SkipLevel(t, 0)..]
  }

  // LevelMatch, one byte of the filter at a time.
  predicate Fits(f: Str, t: Str)
    decreases |f|
  {
    if f == [] then t == []
    else if f[0] == HASH then true
    else if f[0] == PLUS then Fits(f[1..], AfterLevel(t))
    else t != [] && t[0] == f[0] && Fits(f[1..], t[1..])
  }

  // The first level and the levels behind it.
  lemma {:induction false} FirstLevel(t: Str)
    ensures Levels(t)[0] == t[..SkipLevel(t, 0)]
    ensures AfterLevel(t) == [] <==> |Levels(t)| == 1
    ensures AfterLevel(t) != [] ==> AfterLevel(t)[0] == SLASH && Levels(t)[1..] == Levels(AfterLevel(t)[1..])
  {
    if t != [] && t[0] != SLASH {
      SkipShift(t, 0);
      FirstLevel(t[1..]);
      assert AfterLevel(t) == AfterLevel(t[1..]);
      assert t[..SkipLevel(t, 0)] == [t[0]] + t[1..][..SkipLevel(t[1..], 0)];
    }
  }

  lemma {:induction false} SkipShift(t: Str, i: nat)
    requires t != [] && i + 1 <= |t|
    ensures SkipLevel(t, i + 1) == 1 + SkipLevel(t[1..], i)
    decreases |t| - i
  {
    if i + 1 < |t| && t[i + 1] != SLASH {
      SkipShift(t, i + 1);
    }
  }

  // How Levels sees the first byte.
  lemma LevelHead(s: Str)
    ensures s == [] ==> Levels(s) == [[]]
    ensures s != [] && s[0] == SLASH ==> Levels(s) == [[]] + Levels(s[1..])
    ensures s != [] && s[0] != SLASH ==>
              |Levels(s)[0]| > 0 && Levels(s)[0][0] == s[0] && Levels(s)[0][1..] == Levels(s[1..])[0]
              && Levels(s)[1..] == Levels(s[1..])[1..]
  {
  }

  lemma PlusLevel(f: Str)
    requires |f| > 1 && f[0] == PLUS && f[1] == SLASH
    ensures Levels(f) == [[PLUS]] + Levels(f[2..])
  {
    LevelHead(f[1..]);
    assert f[1..][1..] == f[2..];
    assert [PLUS] + [] == [PLUS];
  }

  lemma {:induction false} FitsIsLevelMatch(f: Str, t: Str, start: bool)
    requires ValidFrom(f, start)
    ensures Fits(f, t) == LevelMatch(Levels(f), Levels(t))
    decreases |f|
  {
    LevelHead(f);
    LevelHead(t);
    if f == [] || f[0] == HASH {
    } else if f[0] == PLUS {
      FirstLevel(t);
      var u := AfterLevel(t);
      if |f| > 1 {
        PlusLevel(f);
        assert f[1..][1..] == f[2..];
        if u != [] {
          FitsIsLevelMatch(f[2..], u[1..], true);
        }
      }
    } else if t != [] && t[0] == f[0] {
      LevelHead(f[1..]);
      FitsIsLevelMatch(f[1..], t[1..], f[0] == SLASH);
      if f[0] != SLASH {
        SameHead(Levels(f)[0], Levels(t)[0]);
      }
    }
  }

  lemma SameHead(a: Str, b: Str)
    requires |a| > 0 && |b| > 0 && a[0] == b[0]
    ensures a == b <==> a[1..] == b[1..]
  {
    assert a == [a[0]] + a[1..] && b == [b[0]] + b[1..];
  }

  // ---------- Completeness ----------

  predicate AtLevelStart(f: Str, fp: nat)
    requires fp <= |f|
  {
    fp == 0 || f[fp - 1] == SLASH
  }

  // The index behind the last byte of a filter that is not a wildcard, for a valid filter.
  function LiteralEnd(f: Str): nat {
    if f != [] && (f[|f| - 1] == PLUS || f[|f| - 1] == HASH) then |f| - 1 else |f|
  }

  lemma {:induction false} SkipSuffix(t: Str, tp: nat)
    requires tp <= |t|
    ensures SkipLevel(t, tp) == tp + SkipLevel(t[tp..], 0)
    ensures t[SkipLevel(t, tp)..] == AfterLevel(t[tp..])
    decreases |t| - tp
  {
    if tp < |t| && t[tp] != SLASH {
      SkipSuffix(t, tp + 1);
      SkipShift(t[tp..], 0);
      assert t[tp..][1..] == t[tp + 1..];
    }
  }

  lemma {:induction false} CompleteFrom(t: Str, f: Str, fp: nat, tp: nat)
    requires fp <= |f| && tp <= |t|
    requires ValidFrom(f[fp..], AtLevelStart(f, fp)) && Fits(f[fp..], t[tp..])
    ensures Walk(t, f, fp, tp) == if LiteralEnd(f) <= |t| || LiteralEnd(f) <= fp then Matched else NotMatched
    decreases |f| - fp
  {
    if fp < |f| && f[fp] != HASH {
      assert f[fp..][1..] == f[fp + 1..];
      if f[fp] == PLUS {
        SkipSuffix(t, tp);
        var next := SkipLevel(t, tp);
        if next < |t| {
          CompleteFrom(t, f, fp + 1, next);
        }
      } else if fp < |t| {
        assert t[tp..][1..] == t[tp + 1..];
        CompleteFrom(t, f, fp + 1, tp + 1);
      }
    }
  }

  // When a valid filter matches level by level, matchTopic answers Matched exactly when no byte of the filter before
  // a trailing wildcard sits at or beyond the length of the topic: the guard that compares filterPos with the topic
  // length.
  lemma Completeness(topic: Str, filter: Str)
    requires ValidFilter(filter) && LevelMatch(Levels(filter), Levels(topic))
    ensures MatchOutcome(topic, filter) == if LiteralEnd(filter) <= |topic| then Matched else NotMatched
  {
    FitsIsLevelMatch(filter, topic, true);
    assert filter[0..] == filter && topic[0..] == topic;
    CompleteFrom(topic, filter, 0, 0);
  }

  // ---------- Soundness ----------

  // How much longer than their one-byte wildcards the topic levels under + are.
  function Surplus(F: seq<Str>, T: seq<Str>): int {
    if F == [] || T == [] then 0
    else (if IsPlus(F[0]) then |T[0]| - 1 else 0) + Surplus(F[1..], T[1..])
  }

  // The topic ends at a level under +, and the filter goes on.
  predicate EndsUnderPlus(F: seq<Str>, T: seq<Str>) {
    && |F| > 1 && T != []
    && (if |T| == 1 then IsPlus(F[0]) else (IsPlus(F[0]) || F[0] == T[0]) && EndsUnderPlus(F[1..], T[1..]))
  }

  // The topic ends where the filter still has literal bytes to compare.
  predicate RunsOut(F: seq<Str>, T: seq<Str>) {
    && F != [] && T != []
    && (if |T| == 1 then !IsPlus(F[0]) && !IsHash(F[0]) && T[0] <= F[0] && (T[0] != F[0] || |F| > 1)
        else |F| > 1 && (IsPlus(F[0]) || F[0] == T[0]) && RunsOut(F[1..], T[1..]))
  }

  // No topic level under a + is empty.
  predicate NonEmptyUnderPlus(F: seq<Str>, T: seq<Str>) {
    F == [] || T == [] || ((IsPlus(F[0]) ==> T[0] != []) && NonEmptyUnderPlus(F[1..], T[1..]))
  }

  // What a Matched answer says about the unread parts f and t; start says that f begins a level, sameLength that
  // filter and topic are equally long.
  ghost predicate Sound(f: Str, t: Str, start: bool, sameLength: bool) {
    var F, T := Levels(f), Levels(t);
    && (ValidFrom(f, start) && Fits(f, t) <==> |T| >= |F| && (HASH in f || |t| == |f| + Surplus(F, T)))
    && (|T| >= |F| && HASH !in f ==> |f| + Surplus(F, T) <= |t| && (|f| + Surplus(F, T) == |t| || sameLength))
    && (|T| < |F| ==> EndsUnderPlus(F, T))
  }

  // Consuming an equal byte that is not a wildcard changes none of the level measures.
  lemma LiteralStep(f: Str, t: Str)
    requires f != [] && t != [] && f[0] == t[0] && f[0] != PLUS && f[0] != HASH
    requires f[0] != SLASH && |f| > 1 ==> f[1] != PLUS
    ensures var F, T, F1, T1 := Levels(f), Levels(t), Levels(f[1..]), Levels(t[1..]);
      && |F| - |T| == |F1| - |T1| && Surplus(F, T) == Surplus(F1, T1)
      && (|T| < |F| ==> (EndsUnderPlus(F, T) <==> EndsUnderPlus(F1, T1)))
      && (f[0] == SLASH || |f| == 1 || f[1] != HASH ==> (RunsOut(F, T) <==> RunsOut(F1, T1)))
      && (NonEmptyUnderPlus(F, T) <==> NonEmptyUnderPlus(F1, T1))
  {
    hide Levels;
    hide Surplus;
    hide EndsUnderPlus;
    hide RunsOut;
    hide NonEmptyUnderPlus;
    LevelHead(f);
    LevelHead(t);
    LevelHead(f[1..]);
    var F, T, F1, T1 := Levels(f), Levels(t), Levels(f[1..]), Levels(t[1..]);
    if f[0] == SLASH {
      SlashMeasures(F1, T1);
    } else {
      assert |f| == 1 || f[1] != HASH ==> !IsHash(F1[0]);
      InsideLevel(F, F1, T, T1);
    }
  }

  lemma InsideLevel(F: seq<Str>, F1: seq<Str>, T: seq<Str>, T1: seq<Str>)
    requires F != [] && F1 != [] && F[1..] == F1[1..] && F[0] != [] && F[0][1..] == F1[0]
    requires T != [] && T1 != [] && T[1..] == T1[1..] && T[0] != [] && T[0][1..] == T1[0]
    requires F[0][0] == T[0][0] && !IsPlus(F[0]) && !IsPlus(F1[0]) && !IsHash(F[0])
    ensures Surplus(F, T) == Surplus(F1, T1)
    ensures EndsUnderPlus(F, T) <==> EndsUnderPlus(F1, T1)
    ensures !IsHash(F1[0]) ==> (RunsOut(F, T) <==> RunsOut(F1, T1))
    ensures NonEmptyUnderPlus(F, T) <==> NonEmptyUnderPlus(F1, T1)
  {
    SameHead(F[0], T[0]);
    SamePrefix(F[0], T[0]);
  }

  lemma SlashMeasures(F: seq<Str>, T: seq<Str>)
    requires F != [] && T != []
    ensures Surplus([[]] + F, [[]] + T) == Surplus(F, T)
    ensures EndsUnderPlus([[]] + F, [[]] + T) <==> EndsUnderPlus(F, T)
    ensures RunsOut([[]] + F, [[]] + T) <==> RunsOut(F, T)
    ensures NonEmptyUnderPlus([[]] + F, [[]] + T) <==> NonEmptyUnderPlus(F, T)
  {
    assert ([[]] + F)[1..] == F && ([[]] + T)[1..] == T;
  }

  lemma SamePrefix(a: Str, b: Str)
    requires |a| > 0 && |b| > 0 && a[0] == b[0]
    ensures b <= a <==> b[1..] <= a[1..]
  {
    if b[1..] <= a[1..] {
      assert forall i :: 0 < i < |b| ==> b[i] == b[1..][i - 1] == a[1..][i - 1] == a[i];
    }
  }

  // So does consuming a + together with the topic level under it, but for the surplus of that level.
  lemma PlusStep(f: Str, t: Str)
    requires f != [] && f[0] == PLUS && (|f| == 1 || f[1] == SLASH)
    ensures var F, T, F1, T1 := Levels(f), Levels(t), Levels(f[1..]), Levels(AfterLevel(t));
      && (AfterLevel(t) != [] ==> |F| - |T| == |F1| - |T1|)
      && (AfterLevel(t) == [] ==> |T| == 1)
      && |t| == |T[0]| + |AfterLevel(t)|
      && |F| == |F1| && IsPlus(F[0])
      && Surplus(F, T) == |T[0]| - 1 + Surplus(F1, T1)
      && (AfterLevel(t) != [] && |T| < |F| ==> (EndsUnderPlus(F, T) <==> EndsUnderPlus(F1, T1)))
      && (AfterLevel(t) != [] ==> (RunsOut(F, T) <==> RunsOut(F1, T1)))
      && (NonEmptyUnderPlus(F, T) ==> T[0] != [])
      && (NonEmptyUnderPlus(F, T) && AfterLevel(t) != [] ==> NonEmptyUnderPlus(F1, T1))
  {
    hide Levels;
    hide AfterLevel;
    var F, T, F1, T1 := Levels(f), Levels(t), Levels(f[1..]), Levels(AfterLevel(t));
    PlusFilterLevels(f);
    PlusTopicLevels(t);
    PlusMeasures(F[1..], T[0], T[1..]);
    if AfterLevel(t) == [] {
      assert Surplus(F[1..], T[1..]) == 0 && Surplus(F1, T1) == 0;
    }
  }

  lemma PlusFilterLevels(f: Str)
    requires f != [] && f[0] == PLUS && (|f| == 1 || f[1] == SLASH)
    ensures Levels(f) == [[PLUS]] + Levels(f)[1..] && Levels(f[1..]) == [[]] + Levels(f)[1..]
  {
    assert [PLUS] + [] == [PLUS];
    if |f| > 1 {
      PlusLevel(f);
      LevelHead(f[1..]);
      assert f[1..][1..] == f[2..];
    }
  }

  lemma PlusTopicLevels(t: Str)
    ensures Levels(t) == [Levels(t)[0]] + Levels(t)[1..] && Levels(AfterLevel(t)) == [[]] + Levels(t)[1..]
    ensures |t| == |Levels(t)[0]| + |AfterLevel(t)|
    ensures AfterLevel(t) == [] <==> Levels(t)[1..] == []
  {
    FirstLevel(t);
    LevelHead(AfterLevel(t));
  }

  lemma PlusMeasures(G: seq<Str>, level: Str, U: seq<Str>)
    ensures Surplus([[PLUS]] + G, [level] + U) == |level| - 1 + Surplus([[]] + G, [[]] + U)
    ensures U != [] ==> (EndsUnderPlus([[PLUS]] + G, [level] + U) <==> EndsUnderPlus([[]] + G, [[]] + U))
    ensures U != [] ==> (RunsOut([[PLUS]] + G, [level] + U) <==> RunsOut([[]] + G, [[]] + U))
    ensures NonEmptyUnderPlus([[PLUS]] + G, [level] + U) <==> level != [] && NonEmptyUnderPlus([[]] + G, [[]] + U)
  {
    assert ([[PLUS]] + G)[1..] == G && ([level] + U)[1..] == U;
    assert ([[]] + G)[1..] == G && ([[]] + U)[1..] == U;
  }

  lemma SoundLiteral(f: Str, t: Str, start: bool, sameLength: bool)
    requires f != [] && t != [] && f[0] == t[0] && f[0] != PLUS && f[0] != HASH
    requires f[0] != SLASH && |f| > 1 ==> f[1] != PLUS
    requires Sound(f[1..], t[1..], f[0] == SLASH, sameLength)
    ensures Sound(f, t, start, sameLength)
  {
    LiteralStep(f, t);
    assert f == [f[0]] + f[1..];
  }

  lemma SoundPlus(f: Str, t: Str, sameLength: bool)
    requires f != [] && f[0] == PLUS && (|f| == 1 || f[1] == SLASH)
    requires AfterLevel(t) == [] || Sound(f[1..], AfterLevel(t), false, sameLength)
    ensures Sound(f, t, true, sameLength)
  {
    hide AfterLevel;
    hide Levels;
    PlusStep(f, t);
    assert f == [f[0]] + f[1..];
    if AfterLevel(t) == [] {
      PlusAlone(f, t);
    }
  }

  lemma PlusAlone(f: Str, t: Str)
    requires f != [] && f[0] == PLUS && (|f| == 1 || f[1] == SLASH) && AfterLevel(t) == []
    ensures Sound(f, t, true, false)
  {
    PlusFilterLevels(f);
    PlusTopicLevels(t);
    PlusMeasures(Levels(f)[1..], Levels(t)[0], []);
    assert Levels(t) == [Levels(t)[0]] + [];
    assert Surplus(Levels(f), Levels(t)) == |t| - 1;
    if |f| == 1 {
      assert f[1..] == [] && f == [PLUS];
    } else {
      assert f[1..][0] == SLASH;
      LevelHead(f[1..]);
    }
  }

  // A Matched answer from filterPos fp and topicPos tp, which may stand inside a level.
  lemma {:induction false} SoundFrom(t: Str, f: Str, fp: nat, tp: nat)
    requires fp <= |f| && tp <= |t| && Walk(t, f, fp, tp) == Matched
    ensures Sound(f[fp..], t[tp..], AtLevelStart(f, fp), |f| == |t|)
    decreases |f| - fp
  {
    hide Sound;
    var f', t' := f[fp..], t[tp..];
    if fp == |f| || f[fp] == HASH {
      SoundEnd(f', t', AtLevelStart(f, fp), |f| == |t|);
    } else {
      assert f'[1..] == f[fp + 1..];
      if f[fp] == PLUS {
        SkipSuffix(t, tp);
        var next := SkipLevel(t, tp);
        if next < |t| {
          SoundFrom(t, f, fp + 1, next);
        }
        SoundPlus(f', t', |f| == |t|);
      } else {
        assert t'[1..] == t[tp + 1..];
        SoundFrom(t, f, fp + 1, tp + 1);
        SoundLiteral(f', t', AtLevelStart(f, fp), |f| == |t|);
      }
    }
  }

  lemma SoundEnd(f: Str, t: Str, start: bool, sameLength: bool)
    requires (f == [] && (sameLength || t == [])) || (start && f == [HASH])
    ensures Sound(f, t, start, sameLength)
  {
    if f == [HASH] {
      assert [HASH] + [] == [HASH];
      assert Levels(f) == [[HASH]];
    }
  }

  // The levels of a topic that ends under a + are matched by the filter's up to there.
  lemma {:induction false} EndsMatched(F: seq<Str>, T: seq<Str>)
    requires EndsUnderPlus(F, T)
    ensures |T| < |F| && LevelMatch(F[..|T|], T)
    decreases |T|
  {
    if |T| > 1 {
      EndsMatched(F[1..], T[1..]);
      assert F[..|T|][1..] == F[1..][..|T| - 1];
    } else {
      assert F[..1][1..] == [] && T[1..] == [];
    }
  }

  // A Matched answer is right - the filter is valid and matches level by level - exactly when the topic has at least
  // as many levels as the filter and, unless the filter holds a #, the topic's length is accounted for by the
  // filter's. When the filter ends in a # level that is one level more than the topic has, the answer is right by the
  // parent rule.
  lemma Soundness(topic: Str, filter: Str)
    requires MatchOutcome(topic, filter) == Matched
    ensures var F, T := Levels(filter), Levels(topic);
      ValidFilter(filter) && LevelMatch(F, T) <==>
        |T| >= |F| && (HASH in filter || |topic| == |filter| + Surplus(F, T))
    ensures var F, T := Levels(filter), Levels(topic);
      |T| == |F| - 1 && IsHash(F[|F| - 1]) ==> StandardMatch(F, T)
  {
    assert filter[0..] == filter && topic[0..] == topic;
    SoundFrom(topic, filter, 0, 0);
    if |Levels(topic)| < |Levels(filter)| {
      EndsMatched(Levels(filter), Levels(topic));
    }
    if ValidFilter(filter) {
      FitsIsLevelMatch(filter, topic, true);
    }
  }

  // ---------- Out-of-range accesses ----------

  lemma {:induction false} SurplusBound(F: seq<Str>, t: Str)
    ensures Surplus(F, Levels(t)) <= |t|
    decreases |t|
  {
    PlusTopicLevels(t);
    FirstLevel(t);
    if F != [] && AfterLevel(t) != [] {
      SurplusBound(F[1..], AfterLevel(t)[1..]);
    }
  }

  lemma {:induction false} PanicFrom(t: Str, f: Str, fp: nat, tp: nat)
    requires fp <= |f| && tp <= |t| && ValidFrom(f[fp..], AtLevelStart(f, fp))
    ensures var F, T := Levels(f[fp..]), Levels(t[tp..]);
      Walk(t, f, fp, tp) == IndexPanic <==> RunsOut(F, T) && Surplus(F, T) + tp - fp > 0
    decreases |f| - fp
  {
    var f', t' := f[fp..], t[tp..];
    var F, T := Levels(f'), Levels(t');
    hide Levels;
    LevelHead(f');
    LevelHead(t');
    if f' == [] {
    } else if f'[0] == HASH {
      assert [HASH] + [] == [HASH];
      LevelHead(f'[1..]);
      assert f' == [HASH] + f'[1..] && f'[1..] == [];
      HashLevel();
    } else {
      assert f'[1..] == f[fp + 1..];
      if f'[0] == PLUS {
        SkipSuffix(t, tp);
        PlusStep(f', t');
        var next := SkipLevel(t, tp);
        if next < |t| {
          PanicFrom(t, f, fp + 1, next);
        }
      } else if fp >= |t| {
        SurplusBound(F, t');
      } else if tp < |t| && f'[0] == t'[0] {
        assert t'[1..] == t[tp + 1..];
        LiteralStep(f', t');
        PanicFrom(t, f, fp + 1, tp + 1);
      } else {
        LiteralMismatch(f', t');
      }
    }
  }

  lemma HashLevel()
    ensures Levels([HASH]) == [[HASH]]
  {
    assert [HASH] + [] == [HASH];
  }

  // Where a literal byte of the filter meets the end of the topic, or a different byte.
  lemma LiteralMismatch(f: Str, t: Str)
    requires f != [] && f[0] != PLUS && f[0] != HASH && (t == [] || t[0] != f[0])
    ensures RunsOut(Levels(f), Levels(t)) <==> t == []
    ensures t == [] ==> Surplus(Levels(f), Levels(t)) == 0
  {
    LevelHead(f);
    LevelHead(t);
  }

  // For a valid filter, matchTopic indexes past the end of the topic exactly when the topic runs out at literal filter
  // bytes after levels that were, in sum, longer than the + they matched.
  lemma OutOfRange(topic: Str, filter: Str)
    requires ValidFilter(filter)
    ensures MatchOutcome(topic, filter) == IndexPanic <==>
      RunsOut(Levels(filter), Levels(topic)) && Surplus(Levels(filter), Levels(topic)) > 0
  {
    assert filter[0..] == filter && topic[0..] == topic;
    PanicFrom(topic, filter, 0, 0);
  }

  // ---------- Agreement with the standard ----------

  // As long as no topic level under a + is empty the filter cursor never overtakes the topic cursor.
  lemma {:induction false} PoliteFrom(t: Str, f: Str, fp: nat, tp: nat)
    requires fp <= tp <= |t| && fp <= |f| && ValidFrom(f[fp..], AtLevelStart(f, fp))
    requires NonEmptyUnderPlus(Levels(f[fp..]), Levels(t[tp..]))
    ensures Fits(f[fp..], t[tp..]) || EndsUnderPlus(Levels(f[fp..]), Levels(t[tp..])) ==> Walk(t, f, fp, tp) == Matched
    decreases |f| - fp
  {
    var f', t' := f[fp..], t[tp..];
    var F, T := Levels(f'), Levels(t');
    hide Levels;
    LevelHead(f');
    LevelHead(t');
    if f' != [] && f'[0] != HASH && (Fits(f', t') || EndsUnderPlus(F, T)) {
      assert f'[1..] == f[fp + 1..];
      if f'[0] == PLUS {
        SkipSuffix(t, tp);
        PlusStep(f', t');
        EndsBefore(F, T);
        var next := SkipLevel(t, tp);
        if next < |t| {
          assert next > tp;
          PoliteFrom(t, f, fp + 1, next);
        }
      } else {
        if EndsUnderPlus(F, T) {
          EndsBefore(F, T);
          LiteralHead(f', t');
        }
        assert t'[1..] == t[tp + 1..];
        LiteralStep(f', t');
        PoliteFrom(t, f, fp + 1, tp + 1);
      }
    } else if f' != [] && f'[0] == HASH {
      assert f' == [HASH];
      HashLevel();
    }
  }

  lemma {:induction false} EndsBefore(F: seq<Str>, T: seq<Str>)
    ensures EndsUnderPlus(F, T) ==> |T| < |F| && IsPlus(F[|T| - 1])
    decreases |T|
  {
    if EndsUnderPlus(F, T) && |T| > 1 {
      EndsBefore(F[1..], T[1..]);
    }
  }

  // If the topic ends under a later +, it starts with the filter's literal byte.
  lemma LiteralHead(f: Str, t: Str)
    requires f != [] && f[0] != PLUS && f[0] != HASH && EndsUnderPlus(Levels(f), Levels(t))
    ensures t != [] && t[0] == f[0]
  {
    LevelHead(f);
    LevelHead(t);
  }

  lemma {:induction false} SurplusNonNegative(F: seq<Str>, T: seq<Str>)
    requires NonEmptyUnderPlus(F, T)
    ensures Surplus(F, T) >= 0
    decreases |F|
  {
    if F != [] && T != [] {
      SurplusNonNegative(F[1..], T[1..]);
    }
  }

  lemma {:induction false} ParentUnderPlus(F: seq<Str>, T: seq<Str>)
    requires |F| >= 2 && |T| == |F| - 1 && LevelMatch(F[..|F| - 1], T) && IsPlus(F[|F| - 2])
    ensures EndsUnderPlus(F, T)
    decreases |F|
  {
    if |F| > 2 {
      var G := F[..|F| - 1];
      assert G[1..] == F[1..][..|F| - 2];
      ParentUnderPlus(F[1..], T[1..]);
    }
  }

  // The right answer without a panic.
  ghost predicate Agrees(topic: Str, filter: Str) {
    var o := MatchOutcome(topic, filter);
    o != IndexPanic && (o == Matched <==> StandardMatch(Levels(filter), Levels(topic)))
  }

  // EndsUnderPlus, one byte of the filter at a time, and the position of that + in the filter.
  predicate Ends(f: Str, t: Str)
    decreases |f|
  {
    if f == [] || f[0] == HASH then false
    else if f[0] == PLUS then if AfterLevel(t) == [] then |f| > 1 else Ends(f[1..], AfterLevel(t))
    else t != [] && t[0] == f[0] && Ends(f[1..], t[1..])
  }

  function EndAt(f: Str, t: Str): nat
    decreases |f|
  {
    if !Ends(f, t) || (f[0] == PLUS && AfterLevel(t) == []) then 0
    else if f[0] == PLUS then 1 + EndAt(f[1..], AfterLevel(t))
    else 1 + EndAt(f[1..], t[1..])
  }

  // The whole filter, which has no #, is matched by the beginning of the topic, and the topic goes on.
  predicate StartsLike(F: seq<Str>, T: seq<Str>) {
    && F != [] && T != [] && !IsHash(F[0])
    && (if |F| == 1 then if IsPlus(F[0]) then |T| > 1 else F[0] <= T[0] && (F[0] != T[0] || |T| > 1)
        else |T| > 1 && (IsPlus(F[0]) || F[0] == T[0]) && StartsLike(F[1..], T[1..]))
  }

  // StartsLike, one byte of the filter at a time.
  predicate Starts(f: Str, t: Str)
    decreases |f|
  {
    if f == [] then t != []
    else if f[0] == HASH then false
    else if f[0] == PLUS then AfterLevel(t) != [] && Starts(f[1..], AfterLevel(t))
    else t != [] && t[0] == f[0] && Starts(f[1..], t[1..])
  }

  lemma {:induction false} EndsIsEndsUnderPlus(f: Str, t: Str, start: bool)
    requires ValidFrom(f, start)
    ensures Ends(f, t) == EndsUnderPlus(Levels(f), Levels(t))
    ensures Ends(f, t) ==> EndAt(f, t) == |t| - 1 - Surplus(Levels(f), Levels(t))
    decreases |f|
  {
    var F, T := Levels(f), Levels(t);
    EndsBefore(F, T);
    if f == [] {
    } else if f[0] == HASH {
      assert f == [HASH];
      HashLevel();
    } else if f[0] == PLUS {
      var u := AfterLevel(t);
      PlusStep(f, t);
      PlusFilterLevels(f);
      PlusTopicLevels(t);
      if u != [] {
        EndsBefore(Levels(f[1..]), Levels(u));
        EndsIsEndsUnderPlus(f[1..], u, false);
      }
    } else if t != [] && t[0] == f[0] {
      LiteralStep(f, t);
      EndsBefore(Levels(f[1..]), Levels(t[1..]));
      EndsIsEndsUnderPlus(f[1..], t[1..], f[0] == SLASH);
    } else if EndsUnderPlus(F, T) {
      LiteralHead(f, t);
    }
  }

  lemma {:induction false} StartsIsStartsLike(f: Str, t: Str, start: bool)
    requires ValidFrom(f, start)
    ensures Starts(f, t) == StartsLike(Levels(f), Levels(t))
    decreases |f|
  {
    LevelHead(f);
    LevelHead(t);
    if f == [] || f[0] == HASH {
      if f != [] {
        assert f == [HASH];
        HashLevel();
      }
    } else if f[0] == PLUS {
      FirstLevel(t);
      var u := AfterLevel(t);
      PlusFilterLevels(f);
      if |f| > 1 {
        PlusLevel(f);
        assert f[1..][1..] == f[2..];
        if u != [] {
          StartsIsStartsLike(f[2..], u[1..], true);
        }
      }
    } else if t != [] && t[0] == f[0] {
      LevelHead(f[1..]);
      StartsIsStartsLike(f[1..], t[1..], f[0] == SLASH);
      if f[0] != SLASH {
        SameHead(Levels(f)[0], Levels(t)[0]);
        SamePrefix(Levels(t)[0], Levels(f)[0]);
      }
    }
  }

  // When matchTopic answers Matched, from filterPos fp and topicPos tp.
  lemma {:induction false} MatchedFrom(t: Str, f: Str, fp: nat, tp: nat)
    requires fp <= |f| && tp <= |t| && ValidFrom(f[fp..], AtLevelStart(f, fp))
    ensures var f', t' := f[fp..], t[tp..];
      Walk(t, f, fp, tp) == Matched <==>
        || (Fits(f', t') && (LiteralEnd(f) <= |t| || LiteralEnd(f) <= fp))
        || (Ends(f', t') && (fp + EndAt(f', t') <= |t| || EndAt(f', t') == 0))
        || (Starts(f', t') && |f| == |t|)
    decreases |f| - fp
  {
    var f', t' := f[fp..], t[tp..];
    if fp < |f| && f[fp] != HASH {
      assert f'[1..] == f[fp + 1..];
      if f[fp] == PLUS {
        SkipSuffix(t, tp);
        var next := SkipLevel(t, tp);
        assert AfterLevel(t') == t[next..];
        assert if |f'| == 1 then f'[1..] == [] else f'[1..][0] == SLASH && LiteralEnd(f) > fp + 1;
        if next < |t| {
          MatchedFrom(t, f, fp + 1, next);
          assert Ends(f'[1..], t[next..]) ==> EndAt(f'[1..], t[next..]) >= 1;
          assert Ends(f', t') ==> EndAt(f', t') == 1 + EndAt(f'[1..], t[next..]);
          assert Fits(f', t') == Fits(f'[1..], t[next..]);
          assert Starts(f', t') == Starts(f'[1..], t[next..]);
          assert Ends(f', t') == Ends(f'[1..], t[next..]);
          assert Walk(t, f, fp, tp) == Walk(t, f, fp + 1, next);
        } else {
          assert Walk(t, f, fp, tp) == Matched;
          assert AfterLevel(t') == [];
          assert |f'| == 1 ==> Fits(f', t') && LiteralEnd(f) <= fp;
          assert |f'| > 1 ==> Ends(f', t') && EndAt(f', t') == 0;
        }
      } else if fp < |t| && tp < |t| {
        assert t'[1..] == t[tp + 1..];
        if f[fp] == t[tp] {
          MatchedFrom(t, f, fp + 1, tp + 1);
        }
      }
    }
  }

  // For a valid filter matchTopic answers Matched in exactly three cases: the filter matches level by level and is,
  // without a final wildcard, no longer than the topic; the topic ends under a + that is not the filter's last level
  // and does not stand behind the topic's length; or the filter matches a beginning of the topic and happens to be as
  // long as it.
  lemma MatchedExactly(topic: Str, filter: Str)
    requires ValidFilter(filter)
    ensures var F, T := Levels(filter), Levels(topic);
      MatchOutcome(topic, filter) == Matched <==>
        || (LevelMatch(F, T) && LiteralEnd(filter) <= |topic|)
        || (EndsUnderPlus(F, T) && Surplus(F, T) >= -1)
        || (StartsLike(F, T) && |filter| == |topic|)
  {
    assert filter[0..] == filter && topic[0..] == topic;
    MatchedFrom(topic, filter, 0, 0);
    FitsIsLevelMatch(filter, topic, true);
    EndsIsEndsUnderPlus(filter, topic, true);
    StartsIsStartsLike(filter, topic, true);
  }

  lemma {:induction false} StartsApart(F: seq<Str>, T: seq<Str>)
    requires StartsLike(F, T)
    ensures |F| <= |T| && !LevelMatch(F, T)
    decreases |F|
  {
    if |F| > 1 {
      StartsApart(F[1..], T[1..]);
    }
  }

  // For a valid filter and any topic, matchTopic gives the answer of section 4.7.1 except in exactly five cases. It
  // panics: the topic runs out at literal filter bytes after levels under + that were in sum too long. It misses a
  // match: the filter, without a final wildcard, is longer than the topic; or the topic is the parent level of a
  // filter ending in /# and that level is not a +, or is a + behind the topic's length. It finds a wrong one: the
  // topic ends under a + and the filter goes on with more than a #; or the filter matches a mere beginning of the
  // topic and is as long as it.
  lemma Agreement(topic: Str, filter: Str)
    requires ValidFilter(filter)
    ensures var F, T := Levels(filter), Levels(topic);
      Agrees(topic, filter) <==>
        && !(RunsOut(F, T) && Surplus(F, T) > 0)
        && !(LevelMatch(F, T) && LiteralEnd(filter) > |topic|)
        && !(ParentMatch(F, T) && !(IsPlus(F[|F| - 2]) && Surplus(F, T) >= -1))
        && !(EndsUnderPlus(F, T) && !ParentMatch(F, T) && Surplus(F, T) >= -1)
        && !(StartsLike(F, T) && |filter| == |topic|)
  {
    var F, T := Levels(filter), Levels(topic);
    hide Levels;
    MatchedExactly(topic, filter);
    OutOfRange(topic, filter);
    EndsBefore(F, T);
    if ParentMatch(F, T) && IsPlus(F[|F| - 2]) {
      ParentUnderPlus(F, T);
    }
    if LevelMatch(F, T) {
      LevelMatchLength(F, T);
    }
    if StartsLike(F, T) {
      StartsApart(F, T);
    }
  }

  // When no topic level under a + is empty three of them are left: the topic ends under a + and the filter goes on
  // with more than a #; the topic is the parent level of a filter ending in /# and that parent level is not a +; or
  // the topic runs out at literal filter bytes after a level under + longer than one byte.
  lemma PoliteAgreement(topic: Str, filter: Str)
    requires ValidFilter(filter) && NonEmptyUnderPlus(Levels(filter), Levels(topic))
    ensures var F, T := Levels(filter), Levels(topic);
      Agrees(topic, filter) <==>
        && !(EndsUnderPlus(F, T) && !ParentMatch(F, T))
        && !(ParentMatch(F, T) && !IsPlus(F[|F| - 2]))
        && !(RunsOut(F, T) && Surplus(F, T) > 0)
  {
    var F, T := Levels(filter), Levels(topic);
    hide Levels;
    assert filter[0..] == filter && topic[0..] == topic;
    FitsIsLevelMatch(filter, topic, true);
    PoliteFrom(topic, filter, 0, 0);
    OutOfRange(topic, filter);
    EndsBefore(F, T);
    SurplusNonNegative(F, T);
    if ParentMatch(F, T) && IsPlus(F[|F| - 2]) {
      ParentUnderPlus(F, T);
    }
    if MatchOutcome(topic, filter) == Matched {
      SoundFrom(topic, filter, 0, 0);
    }
    if LevelMatch(F, T) {
      LevelMatchLength(F, T);
    }
  }

  lemma {:induction false} LevelMatchLength(F: seq<Str>, T: seq<Str>)
    requires LevelMatch(F, T)
    ensures |T| >= |F|
    decreases |F|
  {
    if F != [] && T != [] && !(|F| == 1 && IsHash(F[0])) {
      LevelMatchLength(F[1..], T[1..]);
    }
  }

  // ---------- Filters without + ----------

  predicate Literal(s: Str) {
    PLUS !in s && HASH !in s
  }

  lemma {:induction false} LiteralWalk(t: Str, f: Str, i: nat, k: nat)
    requires i <= k <= |f| && i <= |t| && Literal(f[i..k])
    ensures Walk(t, f, i, i) == if f[i..k] <= t[i..] then Walk(t, f, k, k) else NotMatched
    decreases k - i
  {
    if i < k {
      assert f[i] == f[i..k][0];
      assert f[i..k] == [f[i]] + f[i + 1..k];
      if i < |t| && f[i] == t[i] {
        assert t[i..] == [t[i]] + t[i + 1..];
        LiteralWalk(t, f, i + 1, k);
      }
    }
  }

  // On a filter without wildcards matchTopic is string equality, for every topic, and never panics.
  lemma LiteralFilter(topic: Str, filter: Str)
    requires Literal(filter)
    ensures MatchOutcome(topic, filter) == if topic == filter then Matched else NotMatched
  {
    var n := |filter|;
    assert filter[0..n] == filter && topic[0..] == topic;
    LiteralWalk(topic, filter, 0, n);
  }

  // On a literal prefix that ends in a slash, followed by #, it is "the topic starts with the prefix".
  lemma PrefixFilter(topic: Str, prefix: Str)
    requires Literal(prefix) && prefix != [] && prefix[|prefix| - 1] == SLASH
    ensures MatchOutcome(topic, prefix + [HASH]) == if prefix <= topic then Matched else NotMatched
  {
    var f, n := prefix + [HASH], |prefix|;
    assert f[0..n] == prefix && topic[0..] == topic;
    LiteralWalk(topic, f, 0, n);
  }

  // ---------- Where matchTopic departs from the standard ----------

  // "+" is said to match "/", whose two levels are empty.
  lemma WrongMatchOfEqualLength()
    ensures MatchOutcome([SLASH], [PLUS]) == Matched
    ensures !StandardMatch(Levels([PLUS]), Levels([SLASH]))
  {
    var t, f := [SLASH], [PLUS];
    assert SkipLevel(t, 0) == 0 && Walk(t, f, 1, 0) == Matched;
    var F, T := Levels(f), Levels(t);
    assert [PLUS] + [] == [PLUS];
    assert t[1..] == [];
    assert T == [[]] + Levels([]);
    assert F == [[PLUS]] && T == [[], []];
    assert !LevelMatch(F[1..], T[1..]);
  }

  // "+/a" is said not to match "/a", whose first level is empty.
  lemma MissedEmptyLevel()
    ensures MatchOutcome([SLASH, 0x61], [PLUS, SLASH, 0x61]) == NotMatched
    ensures StandardMatch(Levels([PLUS, SLASH, 0x61]), Levels([SLASH, 0x61]))
  {
    var t, f := [SLASH, 0x61], [PLUS, SLASH, 0x61];
    PlusLevel(f);
    assert f[2..] == [0x61] && t[1..] == [0x61];
    assert Levels(t) == [[]] + Levels([0x61]) && Levels([0x61]) == [[0x61] + []];
    assert Levels(f)[1..] == Levels([0x61]) == Levels(t)[1..];
    assert LevelMatch(Levels(f)[1..], Levels(t)[1..]);
    assert Walk(t, f, 1, 0) == Walk(t, f, 2, 1);
  }

  // "+/b" is said to match "a".
  lemma WrongMatchAtLastPlus()
    ensures MatchOutcome([0x61], [PLUS, SLASH, 0x62]) == Matched
    ensures !StandardMatch(Levels([PLUS, SLASH, 0x62]), Levels([0x61]))
  {
    var f := [PLUS, SLASH, 0x62];
    PlusLevel(f);
    assert f[2..] == [0x62];
    assert Levels([0x62]) == [[0x62] + []] && [0x62] + [] == [0x62];
    assert Levels([0x61]) == [[0x61] + []];
    var F, T := Levels(f), Levels([0x61]);
    assert F == [[PLUS], [0x62]] && |T| == 1;
    assert !LevelMatch(F[1..], T[1..]);
    assert !IsHash(F[1]);
    assert SkipLevel([0x61], 1) == 1 && SkipLevel([0x61], 0) == 1;
  }

  // "a/#" is said not to match its parent level "a".
  lemma MissedParent()
    ensures MatchOutcome([0x61], [0x61, SLASH, HASH]) == NotMatched
    ensures StandardMatch(Levels([0x61, SLASH, HASH]), Levels([0x61]))
  {
    var f := [0x61, SLASH, HASH];
    assert f[1..] == [SLASH, HASH] && f[1..][1..] == [HASH];
    HashLevel();
    assert Levels(f[1..]) == [[]] + [[HASH]];
    assert [0x61] + [] == [0x61];
    var F, T := Levels(f), Levels([0x61]);
    assert F == [[0x61], [HASH]] && T == [[0x61]];
    assert LevelMatch(F[..1], T) by {
      var none: seq<Str> := [];
      assert F[..1][1..] == none && T[1..] == none;
    }
    assert ParentMatch(F, T);
    assert Walk([0x61], f, 1, 1) == NotMatched;
  }

  // "+/b/a" against "aa/b" reads behind the end of the topic.
  lemma PanicAfterLongLevel()
    ensures MatchOutcome([0x61, 0x61, SLASH, 0x62], [PLUS, SLASH, 0x62, SLASH, 0x61]) == IndexPanic
  {
    var t, f := [0x61, 0x61, SLASH, 0x62], [PLUS, SLASH, 0x62, SLASH, 0x61];
    assert SkipLevel(t, 2) == 2;
    assert SkipLevel(t, 1) == 2;
    assert SkipLevel(t, 0) == 2;
    assert Walk(t, f, 3, 4) == IndexPanic;
    assert Walk(t, f, 1, 2) == IndexPanic;
  }

  // ---------- Invalid filters ----------

  // A wildcard that does not occupy its level, or a # that is not at the end.
  predicate Misplaced(f: Str, i: nat)
    requires i < |f|
  {
    || (f[i] == HASH && ((i > 0 && f[i - 1] != SLASH) || i + 1 < |f|))
    || (f[i] == PLUS && ((i > 0 && f[i - 1] != SLASH) || (i + 1 < |f| && f[i + 1] != SLASH)))
  }

  lemma {:induction false} ValidTail(f: Str, i: nat)
    requires i <= |f|
    ensures ValidFrom(f[i..], i == 0 || f[i - 1] == SLASH) <==> forall j :: i <= j < |f| ==> !Misplaced(f, j)
    decreases |f| - i
  {
    if i < |f| {
      ValidTail(f, i + 1);
      var rest := f[i..];
      assert rest[1..] == f[i + 1..] && rest[0] == f[i] && |rest| == |f| - i;
      assert i + 1 < |f| ==> rest[1] == f[i + 1];
      assert (forall j :: i <= j < |f| ==> !Misplaced(f, j))
        <==> !Misplaced(f, i) && forall j :: i + 1 <= j < |f| ==> !Misplaced(f, j);
      if f[i] == HASH && i + 1 < |f| {
        assert Misplaced(f, i);
      }
    }
  }

  // A filter is valid exactly if no wildcard in it is misplaced.
  lemma ValidExactly(f: Str)
    ensures ValidFilter(f) <==> forall j :: 0 <= j < |f| ==> !Misplaced(f, j)
  {
    ValidTail(f, 0);
    assert f[0..] == f;
  }

  lemma {:induction false} InvalidFrom(t: Str, f: Str, v: nat, fp: nat, tp: nat)
    requires fp <= v < |f| && tp <= |t| && Misplaced(f, v) && forall j :: 0 <= j < v ==> !Misplaced(f, j)
    ensures Walk(t, f, fp, tp) == IndexPanic <==> Walk(t, f[..v], fp, tp) == IndexPanic
    ensures Walk(t, f, fp, tp) == Matched ==> Walk(t, f[..v], fp, tp) == Matched
    decreases v - fp
  {
    if fp < v {
      assert !Misplaced(f, fp);
      if f[fp] == PLUS {
        InvalidFrom(t, f, v, fp + 1, SkipLevel(t, tp));
      } else if tp < |t| {
        InvalidFrom(t, f, v, fp + 1, tp + 1);
      }
    }
  }

  // An invalid filter is given up at its first misplaced wildcard: up to there the answer is that of the filter cut
  // off in front of it, and it is "no match" where that one has come to its end.
  lemma InvalidFilter(t: Str, f: Str, v: nat)
    requires v < |f| && Misplaced(f, v) && forall j :: 0 <= j < v ==> !Misplaced(f, j)
    ensures MatchOutcome(t, f) == IndexPanic <==> MatchOutcome(t, f[..v]) == IndexPanic
    ensures MatchOutcome(t, f) == Matched ==> MatchOutcome(t, f[..v]) == Matched
    ensures ValidFilter(f[..v]) && !ValidFilter(f)
  {
    InvalidFrom(t, f, v, 0, 0);
    ValidExactly(f);
    ValidExactly(f[..v]);
    assert forall j :: 0 <= j < v && Misplaced(f[..v], j) ==> Misplaced(f, j);
  }
}
