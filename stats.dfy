/** `getStats`: the figures of the statistics panel, computed from the
    progress state. `Math.round` is rounding to the nearest integer with
    halves going up; on a quotient of integers it is written here with
    integer floor division. */
module Stats {
  import opened Catalogue
  import opened Progress

  datatype CategoryStats = CategoryStats(prayer: nat, quran: nat, charity: nat, dhikr: nat)

  datatype Stats = Stats(
    totalChallenges: nat,
    completedCount: nat,
    completionRate: int,
    totalPoints: int,
    averagePointsPerDay: int,
    categoryStats: CategoryStats)

  /** `Math.round(num / den)` for a positive denominator: the integer
      nearest to `num / den`, a tie going to the larger one. */
  function RoundDiv(num: int, den: int): (q: int)
    requires den > 0
    ensures 2 * den * q - den <= 2 * num < 2 * den * q + den
  {
    var q := (2 * num + den) / (2 * den);
    assert 2 * num + den == 2 * den * q + (2 * num + den) % (2 * den);
    q
  }

  /** Rounding an exact number of tenths gives that number. */
  lemma RoundTenthsExact(k: int)
    ensures RoundDiv(10 * k, 10) == k
  {
    assert 2 * (10 * k) + 10 == 20 * k + 10;
  }

  /** How many of `cs` have the category and a completed id: the length of
      one `filter` of the category tally. */
  function CategoryCount(cs: seq<Challenge>, cat: Category, completed: seq<int>): (n: nat)
    ensures n <= |cs|
    ensures completed == [] ==> n == 0
  {
    if cs == [] then 0
    else
      var c := cs[|cs| - 1];
      CategoryCount(cs[..|cs| - 1], cat, completed) + (if c.category == cat && c.id in completed then 1 else 0)
  }

  /** How many of `cs` have a completed id, whatever the category. */
  function CompletedAmong(cs: seq<Challenge>, completed: seq<int>): nat {
    if cs == [] then 0
    else
      var c := cs[|cs| - 1];
      CompletedAmong(cs[..|cs| - 1], completed) + (if c.id in completed then 1 else 0)
  }

  /** The four category tallies split the completed built-in challenges:
      every challenge has exactly one category. */
  lemma {:induction false} CategoriesPartition(cs: seq<Challenge>, completed: seq<int>)
    ensures CategoryCount(cs, Prayer, completed) + CategoryCount(cs, Quran, completed)
            + CategoryCount(cs, Charity, completed) + CategoryCount(cs, Dhikr, completed)
            == CompletedAmong(cs, completed)
    ensures CompletedAmong(cs, completed) <= |cs|
  {
    if cs != [] {
      CategoriesPartition(cs[..|cs| - 1], completed);
    }
  }

  /** The completion percentage as the source computes it: the number of
      completed ids, which includes custom ones, over the ten built-in
      challenges. */
  function CompletionRateAsWritten(completed: seq<int>): (r: int)
    ensures r == 10 * |completed|
  {
    RoundTenthsExact(10 * |completed|);
    assert 100 * |completed| == 10 * (10 * |completed|);
    RoundDiv(100 * |completed|, |BuiltinChallenges|)
  }

  /** Completing all ten built-in challenges and one custom challenge
      reports 110 percent. */
  lemma CompletionRateAsWrittenExceedsHundred()
    ensures var completed := [1, 2, 3, 4, 5, 6, 7, 8, 9, 10, 1742500000000];
            CompletionRateAsWritten(completed) == 110
  {
  }

  /** The completion percentage over the ten built-in challenges, counting
      only the completed ids that belong to them. */
  function CompletionRate(completed: seq<int>): (r: int)
    ensures 0 <= r <= 100
    ensures r == 10 * CompletedAmong(BuiltinChallenges, completed)
  {
    var done := CompletedAmong(BuiltinChallenges, completed);
    CategoriesPartition(BuiltinChallenges, completed);
    RoundTenthsExact(10 * done);
    assert 100 * done == 10 * (10 * done);
    RoundDiv(100 * done, |BuiltinChallenges|)
  }

  /** The statistics panel: ten challenges in all, the number of completed
      ids, a percentage within 0..100 that is ten per completed built-in
      challenge, category tallies that add up to that number, and the
      points per day rounded to the nearest integer. */
  function GetStats(s: ProgressState): (st: Stats)
    ensures st.totalChallenges == 10
    ensures st.completedCount == |s.completed|
    ensures 0 <= st.completionRate <= 100
    ensures st.categoryStats.prayer + st.categoryStats.quran + st.categoryStats.charity + st.categoryStats.dhikr
            == st.completionRate / 10
    ensures st.totalPoints == s.totalPoints
    ensures 20 * st.averagePointsPerDay - 10 <= 2 * s.totalPoints < 20 * st.averagePointsPerDay + 10
    ensures s.totalPoints >= 0 ==> st.averagePointsPerDay >= 0
  {
    CategoriesPartition(BuiltinChallenges, s.completed);
    Stats(
      |BuiltinChallenges|,
      |s.completed|,
      CompletionRate(s.completed),
      s.totalPoints,
      RoundDiv(s.totalPoints, 10),
      CategoryStats(
        CategoryCount(BuiltinChallenges, Prayer, s.completed),
        CategoryCount(BuiltinChallenges, Quran, s.completed),
        CategoryCount(BuiltinChallenges, Charity, s.completed),
        CategoryCount(BuiltinChallenges, Dhikr, s.completed)))
  }

}
