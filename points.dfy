/** Point reconciliation: the two `reduce` folds of `calculateInitialPoints`
    and the facts the store's incremental bookkeeping relies on. */
module Points {
  import opened Catalogue

  /** `ids.reduce((total, id) => total + f(id), 0)`, a left fold. */
  function SumOver(ids: seq<int>, f: int -> int): (total: int)
    ensures ids == [] ==> total == 0
    ensures |ids| == 1 ==> total == f(ids[0])
  {
    if ids == [] then 0 else SumOver(ids[..|ids| - 1], f) + f(ids[|ids| - 1])
  }

  function ChallengePointsFn(cs: seq<Challenge>): int -> int {
    id => ChallengePoints(cs, id)
  }

  function AchievementPointsFn(): int -> int {
    id => AchievementPoints(id)
  }

  /** The built-in challenges followed by the custom ones, the order in
      which lookups see them. */
  function AllChallenges(custom: seq<Challenge>): seq<Challenge> {
    BuiltinChallenges + custom
  }

  function SumChallengePoints(custom: seq<Challenge>, completed: seq<int>): int {
    SumOver(completed, ChallengePointsFn(AllChallenges(custom)))
  }

  function SumAchievementPoints(unlocked: seq<int>): int {
    SumOver(unlocked, AchievementPointsFn())
  }

  /** `calculateInitialPoints`: the total recomputed from scratch. */
  function CalculateInitialPoints(custom: seq<Challenge>, completed: seq<int>, unlocked: seq<int>): (total: int)
    ensures completed == [] && unlocked == [] ==> total == 0
    ensures unlocked == [] ==> total == SumChallengePoints(custom, completed)
    ensures completed == [] ==> total == SumAchievementPoints(unlocked)
  {
    SumChallengePoints(custom, completed) + SumAchievementPoints(unlocked)
  }

  lemma {:induction false} SumOverAppend(xs: seq<int>, ys: seq<int>, f: int -> int)
    ensures SumOver(xs + ys, f) == SumOver(xs, f) + SumOver(ys, f)
  {
    if ys == [] {
      assert xs + ys == xs;
    } else {
      var zs := xs + ys;
      assert zs[..|zs| - 1] == xs + ys[..|ys| - 1];
      assert zs[|zs| - 1] == ys[|ys| - 1];
      SumOverAppend(xs, ys[..|ys| - 1], f);
    }
  }

  /** For an id listed at most once, filtering it out takes its value off
      the sum if it was listed, and nothing otherwise. */
  lemma {:induction false} SumOverRemoveUnique(xs: seq<int>, x: int, f: int -> int)
    requires Count(xs, x) <= 1
    ensures SumOver(RemoveId(xs, x), f) == SumOver(xs, f) - (if x in xs then f(x) else 0)
  {
    if xs != [] {
      var init := xs[..|xs| - 1];
      var last := xs[|xs| - 1];
      assert xs == init + [last];
      SumOverRemoveUnique(init, x, f);
      if last == x {
        assert x !in init;
        assert RemoveId(xs, x) == RemoveId(init, x);
      } else {
        assert RemoveId(xs, x) == RemoveId(init, x) + [last];
        SumOverAppend(RemoveId(init, x), [last], f);
        assert SumOver([last], f) == f(last) by {
          assert [last][..0] == [];
        }
        assert x in xs <==> x in init;
      }
    }
  }

  /** Two folds agree when their functions agree on every listed id. */
  lemma {:induction false} SumOverCongruent(xs: seq<int>, f: int -> int, g: int -> int)
    requires forall i :: 0 <= i < |xs| ==> f(xs[i]) == g(xs[i])
    ensures SumOver(xs, f) == SumOver(xs, g)
  {
    if xs != [] {
      SumOverCongruent(xs[..|xs| - 1], f, g);
    }
  }

  lemma {:induction false} SumOverBounded(xs: seq<int>, f: int -> int)
    requires forall i :: 0 <= i < |xs| ==> f(xs[i]) >= 0
    ensures SumOver(xs, f) >= 0
  {
    if xs != [] {
      SumOverBounded(xs[..|xs| - 1], f);
    }
  }

  /** An entry of the list contributes its whole value to the fold when all
      values are non-negative. */
  lemma {:induction false} SumOverAtLeastMember(xs: seq<int>, x: int, f: int -> int)
    requires forall i :: 0 <= i < |xs| ==> f(xs[i]) >= 0
    requires x in xs
    ensures SumOver(xs, f) >= f(x)
  {
    var init := xs[..|xs| - 1];
    assert xs == init + [xs[|xs| - 1]];
    SumOverBounded(init, f);
    if xs[|xs| - 1] != x {
      SumOverAtLeastMember(init, x, f);
    }
  }

  /** With non-negative challenge points the recomputed total is never
      negative (achievement points are non-negative by construction). */
  lemma CalculateInitialPointsNonNegative(custom: seq<Challenge>, completed: seq<int>, unlocked: seq<int>)
    requires NonNegativePoints(custom)
    ensures CalculateInitialPoints(custom, completed, unlocked) >= 0
  {
    var all := AllChallenges(custom);
    forall i | 0 <= i < |completed|
      ensures ChallengePointsFn(all)(completed[i]) >= 0
    {
      ChallengePointsNonNegative(all, completed[i]);
    }
    SumOverBounded(completed, ChallengePointsFn(all));
    forall i | 0 <= i < |unlocked|
      ensures AchievementPointsFn()(unlocked[i]) >= 0
    {
    }
    SumOverBounded(unlocked, AchievementPointsFn());
  }

  lemma SumAchievementPointsNonNegative(ids: seq<int>)
    ensures SumAchievementPoints(ids) >= 0
  {
    forall i | 0 <= i < |ids| ensures AchievementPointsFn()(ids[i]) >= 0 { }
    SumOverBounded(ids, AchievementPointsFn());
  }

  /** Every completed id contributes a non-negative amount to the fold. */
  lemma ChallengeFoldNonNegative(custom: seq<Challenge>, ids: seq<int>)
    requires NonNegativePoints(custom)
    ensures forall i :: 0 <= i < |ids| ==> ChallengePointsFn(AllChallenges(custom))(ids[i]) >= 0
  {
    AllChallengesNonNegative(custom);
    forall i | 0 <= i < |ids| ensures ChallengePointsFn(AllChallenges(custom))(ids[i]) >= 0 {
      ChallengePointsNonNegative(AllChallenges(custom), ids[i]);
    }
  }

  lemma AllChallengesNonNegative(custom: seq<Challenge>)
    requires NonNegativePoints(custom)
    ensures NonNegativePoints(AllChallenges(custom))
  {
    var all := AllChallenges(custom);
    forall i | 0 <= i < |all| ensures all[i].points >= 0 {
      if i >= |BuiltinChallenges| {
        assert all[i] == custom[i - |BuiltinChallenges|];
      }
    }
  }
}
