/** The fixed content catalogue of the tracker: challenge and achievement
    records, the ten built-in challenges, the three achievements, and the
    first-match lookup and id filters the progress engine is built from. */
module Catalogue {

  datatype Option<T> = None | Some(value: T) {
    function GetOr(default: T): T {
      match this
      case Some(v) => v
      case None => default
    }
  }

  datatype Category = Prayer | Quran | Charity | Dhikr

  /** Easy, medium, advanced and the night-of-decree tier. */
  datatype Difficulty = Easy | Medium | Advanced | QadrNight

  /** A devotional task; `isQadrNight` and `isCustom` are optional flags
      in the source and read as false when absent. */
  datatype Challenge = Challenge(
    id: int,
    title: string,
    description: string,
    category: Category,
    difficulty: Difficulty,
    points: int,
    isQadrNight: bool,
    isCustom: bool)

  /** An achievement unlocks once at least `threshold` entries are in the
      completed list; its condition ignores the point total. */
  datatype Achievement = Achievement(id: int, threshold: nat, points: int)

  predicate Condition(a: Achievement, completed: seq<int>, totalPoints: int) {
    |completed| >= a.threshold
  }

  const BuiltinChallenges: seq<Challenge> := [
    Challenge(1, "Night prayer", "Eight units of night prayer", Prayer, Easy, 50, false, false),
    Challenge(2, "Surat al-Kahf", "Read the whole surah today", Quran, Medium, 75, false, false),
    Challenge(3, "Give to someone in need", "Give charity, however small", Charity, Easy, 50, false, false),
    Challenge(4, "Supplication of the Night of Decree", "O Allah, You are pardoning", Dhikr, QadrNight, 100, true, false),
    Challenge(5, "Forenoon prayer", "Two to eight units after sunrise", Prayer, Medium, 75, false, false),
    Challenge(6, "Five pages of Quran", "Recite five pages with reflection", Quran, Easy, 50, false, false),
    Challenge(7, "Seek forgiveness 100 times", "Say the formula of forgiveness 100 times", Dhikr, Easy, 50, false, false),
    Challenge(8, "Feed a poor person", "Feed someone or help with a fast-breaking meal", Charity, Medium, 75, false, false),
    Challenge(9, "Memorise a verse", "Memorise a new verse of the Quran", Quran, Advanced, 100, false, false),
    Challenge(10, "Blessings on the Prophet", "Send blessings 100 times", Dhikr, Easy, 50, false, false)
  ]

  const Achievements: seq<Achievement> := [
    Achievement(1, 1, 100),
    Achievement(2, 5, 250),
    Achievement(3, 10, 500)
  ]

  /** Every challenge in `cs` is worth a non-negative number of points. */
  predicate NonNegativePoints(cs: seq<Challenge>) {
    forall i :: 0 <= i < |cs| ==> cs[i].points >= 0
  }

  /** Index of the first challenge with the id, or `|cs|` when none has it. */
  function FirstIndex(cs: seq<Challenge>, id: int): (k: nat)
    ensures k <= |cs|
    ensures k < |cs| ==> cs[k].id == id
    ensures forall j :: 0 <= j < k ==> cs[j].id != id
  {
    if cs == [] then 0
    else if cs[0].id == id then 0
    else 1 + FirstIndex(cs[1..], id)
  }

  /** `Array.prototype.find` on a challenge list: the FIRST entry with the id. */
  function FindChallenge(cs: seq<Challenge>, id: int): (r: Option<Challenge>)
    ensures r.None? <==> forall i :: 0 <= i < |cs| ==> cs[i].id != id
    ensures r.Some? ==> exists i :: 0 <= i < |cs| && cs[i] == r.value && r.value.id == id
                                    && forall j :: 0 <= j < i ==> cs[j].id != id
  {
    var k := FirstIndex(cs, id);
    if k < |cs| then Some(cs[k]) else None
  }

  /** `Array.prototype.find` on the achievement catalogue. */
  function FindAchievement(achs: seq<Achievement>, id: int): (r: Option<Achievement>)
    ensures r.None? <==> forall i :: 0 <= i < |achs| ==> achs[i].id != id
    ensures r.Some? ==> exists i :: 0 <= i < |achs| && achs[i] == r.value && r.value.id == id
                                    && forall j :: 0 <= j < i ==> achs[j].id != id
  {
    if achs == [] then None
    else if achs[0].id == id then Some(achs[0])
    else FindAchievement(achs[1..], id)
  }

  /** Points a completed id contributes: the first matching challenge's,
      0 when nothing matches. */
  function ChallengePoints(cs: seq<Challenge>, id: int): (p: int)
    ensures (forall i :: 0 <= i < |cs| ==> cs[i].id != id) ==> p == 0
    ensures FirstIndex(cs, id) < |cs| ==> p == cs[FirstIndex(cs, id)].points
  {
    match FindChallenge(cs, id)
    case Some(c) => c.points
    case None => 0
  }

  /** Points an unlocked id contributes: its catalogue achievement's, 0
      when the catalogue has no such id. */
  function AchievementPoints(id: int): (p: int)
    ensures forall i :: 0 <= i < |Achievements| && Achievements[i].id == id ==> p == Achievements[i].points
    ensures (forall i :: 0 <= i < |Achievements| ==> Achievements[i].id != id) ==> p == 0
  {
    match FindAchievement(Achievements, id)
    case Some(a) => a.points
    case None => 0
  }

  lemma ChallengePointsNonNegative(cs: seq<Challenge>, id: int)
    requires NonNegativePoints(cs)
    ensures ChallengePoints(cs, id) >= 0
  {
    match FindChallenge(cs, id)
    case None =>
    case Some(c) =>
  }

  /** Number of occurrences of `x` in `xs`. */
  function Count(xs: seq<int>, x: int): (n: nat)
    ensures n <= |xs|
    ensures n == 0 <==> x !in xs
  {
    if xs == [] then 0
    else Count(xs[..|xs| - 1], x) + (if xs[|xs| - 1] == x then 1 else 0)
  }

  /** `xs.filter(y => y !== x)`: every occurrence of `x` dropped, the other
      entries kept in their order. */
  function RemoveId(xs: seq<int>, x: int): (r: seq<int>)
    ensures x !in r
    ensures |r| <= |xs|
  {
    if xs == [] then []
    else
      var prefix := RemoveId(xs[..|xs| - 1], x);
      assert xs == xs[..|xs| - 1] + [xs[|xs| - 1]];
      if xs[|xs| - 1] == x then prefix else prefix + [xs[|xs| - 1]]
  }

  /** `cs.filter(c => c.id !== id)` on a challenge list. */
  function RemoveChallenge(cs: seq<Challenge>, id: int): (r: seq<Challenge>)
    ensures forall i :: 0 <= i < |r| ==> r[i].id != id
    ensures |r| <= |cs|
  {
    if cs == [] then []
    else
      var prefix := RemoveChallenge(cs[..|cs| - 1], id);
      assert cs == cs[..|cs| - 1] + [cs[|cs| - 1]];
      if cs[|cs| - 1].id == id then prefix else prefix + [cs[|cs| - 1]]
  }

  /** The filter keeps exactly the other ids, and drops one entry per
      occurrence of the removed id. */
  lemma {:induction false} RemoveIdMembers(xs: seq<int>, x: int)
    ensures forall y :: y in RemoveId(xs, x) <==> y != x && y in xs
    ensures |RemoveId(xs, x)| == |xs| - Count(xs, x)
  {
    if xs != [] {
      assert xs == xs[..|xs| - 1] + [xs[|xs| - 1]];
      RemoveIdMembers(xs[..|xs| - 1], x);
    }
  }

  lemma {:induction false} RemoveChallengeMembers(cs: seq<Challenge>, id: int)
    ensures forall c :: c in RemoveChallenge(cs, id) <==> c in cs && c.id != id
  {
    if cs != [] {
      assert cs == cs[..|cs| - 1] + [cs[|cs| - 1]];
      RemoveChallengeMembers(cs[..|cs| - 1], id);
    }
  }

  lemma {:induction false} RemoveIdAbsent(xs: seq<int>, x: int)
    requires x !in xs
    ensures RemoveId(xs, x) == xs
  {
    if xs != [] {
      assert xs == xs[..|xs| - 1] + [xs[|xs| - 1]];
      RemoveIdAbsent(xs[..|xs| - 1], x);
    }
  }

  /** Filtering distributes over concatenation, so the surviving entries
      keep their relative order. */
  lemma {:induction false} RemoveIdAppend(xs: seq<int>, ys: seq<int>, x: int)
    ensures RemoveId(xs + ys, x) == RemoveId(xs, x) + RemoveId(ys, x)
  {
    if ys == [] {
      assert xs + ys == xs;
    } else {
      var zs := xs + ys;
      assert zs[..|zs| - 1] == xs + ys[..|ys| - 1];
      assert zs[|zs| - 1] == ys[|ys| - 1];
      RemoveIdAppend(xs, ys[..|ys| - 1], x);
    }
  }

  /** The challenge filter distributes over concatenation, so the surviving
      challenges keep their relative order. */
  lemma {:induction false} RemoveChallengeAppend(cs: seq<Challenge>, ds: seq<Challenge>, id: int)
    ensures RemoveChallenge(cs + ds, id) == RemoveChallenge(cs, id) + RemoveChallenge(ds, id)
  {
    if ds == [] {
      assert cs + ds == cs;
    } else {
      var es := cs + ds;
      assert es[..|es| - 1] == cs + ds[..|ds| - 1];
      assert es[|es| - 1] == ds[|ds| - 1];
      RemoveChallengeAppend(cs, ds[..|ds| - 1], id);
    }
  }

  lemma {:induction false} RemoveChallengeAbsent(cs: seq<Challenge>, id: int)
    requires forall i :: 0 <= i < |cs| ==> cs[i].id != id
    ensures RemoveChallenge(cs, id) == cs
  {
    if cs != [] {
      assert cs == cs[..|cs| - 1] + [cs[|cs| - 1]];
      RemoveChallengeAbsent(cs[..|cs| - 1], id);
    }
  }

  /** Dropping the entries with one id does not change which challenge any
      other id finds. */
  lemma {:induction false} FindAfterRemove(cs: seq<Challenge>, id: int, other: int)
    requires other != id
    ensures FindChallenge(RemoveChallenge(cs, id), other) == FindChallenge(cs, other)
  {
    if cs != [] {
      var init := cs[..|cs| - 1];
      var last := cs[|cs| - 1];
      assert cs == init + [last];
      FindAfterRemove(init, id, other);
      FindAppendOne(init, last, other);
      if last.id != id {
        FindAppendOne(RemoveChallenge(init, id), last, other);
      }
    }
  }

  /** Appending an entry only matters to ids the list did not have yet. */
  lemma FindAppendOne(cs: seq<Challenge>, c: Challenge, id: int)
    ensures FindChallenge(cs + [c], id)
         == match FindChallenge(cs, id)
            case Some(x) => Some(x)
            case None => if c.id == id then Some(c) else None
  {
    if cs != [] {
      assert (cs + [c])[1..] == cs[1..] + [c];
      FindAppendOne(cs[1..], c, id);
    } else {
      assert cs + [c] == [c];
    }
  }

  /** Lookup in the concatenation of two catalogues prefers the first. */
  lemma FindConcat(cs: seq<Challenge>, ds: seq<Challenge>, id: int)
    ensures FindChallenge(cs + ds, id)
         == match FindChallenge(cs, id)
            case Some(x) => Some(x)
            case None => FindChallenge(ds, id)
  {
    if cs != [] {
      assert (cs + ds)[1..] == cs[1..] + ds;
      FindConcat(cs[1..], ds, id);
    } else {
      assert cs + ds == ds;
    }
  }

  lemma BuiltinPointsNonNegative()
    ensures NonNegativePoints(BuiltinChallenges)
  {
  }
}
