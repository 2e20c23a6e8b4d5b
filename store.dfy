/** The component's state as an object: the four state variables and the
    persisted snapshot are fields, each handler is a method that updates
    them in place, and each method is proved against the matching function
    of module Progress. */
module Store {
  import opened Catalogue
  import opened Points
  import opened Progress

  class ProgressStore {
    var completed: seq<int>
    var totalPoints: int
    var unlocked: seq<int>
    var custom: seq<Challenge>
    /** The key-value storage the component reads at mount and writes back. */
    var stored: Stored

    function State(): ProgressState
      reads this
    {
      ProgressState(completed, totalPoints, unlocked, custom)
    }

    /** Memory and storage agree and the cached total is reconciled: what
        holds once the effect cascade has run. */
    ghost predicate Settled()
      reads this
    {
      Reconciled(State()) && stored == Persist(stored, State())
    }

    /** Mount: the state hooks take their defaults, custom challenges are
        read from storage. */
    constructor (st: Stored)
      ensures State() == Initial(st) && stored == st
    {
      completed := [];
      totalPoints := 0;
      unlocked := [];
      custom := if st.custom.Some? then st.custom.value else [];
      stored := st;
    }

    /** The first-mount effect: reset on a new day, otherwise load. */
    method LoadOnMount(today: string)
      modifies this
      ensures State() == LoadState(old(State()), old(stored), today)
      ensures stored == LoadStored(old(stored), today)
    {
      var savedProgress := stored.completed;
      var savedPoints := stored.points;
      var savedAchievements := stored.achievements;
      var lastUpdateDate := stored.lastUpdateDate;
      if lastUpdateDate != Some(today) {
        completed := [];
        totalPoints := 0;
        stored := stored.(completed := Some([]));
        stored := stored.(points := Some(0));
        stored := stored.(lastUpdateDate := Some(today));
      } else {
        if savedProgress.Some? {
          completed := savedProgress.value;
        }
        if savedPoints.Some? {
          totalPoints := savedPoints.value;
        }
        if savedAchievements.Some? {
          unlocked := savedAchievements.value;
        }
      }
    }

    /** `handleChallengeComplete`. */
    method ToggleCompletion(id: int)
      modifies this
      ensures State() == Progress.ToggleCompletion(old(State()), id)
      ensures stored == old(stored)
    {
      var isCompleted := id in completed;
      var newCompleted := if isCompleted then RemoveId(completed, id) else completed + [id];
      var challenge := FindChallenge(BuiltinChallenges + custom, id);
      if challenge.Some? {
        var pointsToAdd := if isCompleted then -challenge.value.points else challenge.value.points;
        totalPoints := Max0(totalPoints + pointsToAdd);
      }
      completed := newCompleted;
    }

    /** `handleAddChallenge`; `newId` stands for `Date.now()`. */
    method AddCustomChallenge(d: Draft, newId: int)
      modifies this
      ensures State() == Progress.AddCustomChallenge(old(State()), d, newId)
      ensures stored == old(stored)
    {
      if d.title != [] && d.description != [] {
        var challenge := Challenge(newId, d.title, d.description, d.category, d.difficulty, d.points, false, true);
        custom := custom + [challenge];
      }
    }

    /** `handleDeleteChallenge`. */
    method DeleteCustomChallenge(id: int)
      modifies this
      ensures State() == Progress.DeleteCustomChallenge(old(State()), id)
      ensures stored == old(stored)
    {
      var isCompleted := id in completed;
      var challenge := FindChallenge(custom, id);
      if challenge.Some? {
        if isCompleted {
          totalPoints := Max0(totalPoints - challenge.value.points);
        }
        completed := RemoveId(completed, id);
        custom := RemoveChallenge(custom, id);
      }
    }

    /** The recompute effect, which also writes the total to storage. */
    method RecomputePoints()
      modifies this
      ensures State() == Recompute(old(State()))
      ensures stored == old(stored).(points := Some(totalPoints))
    {
      totalPoints := CalculateInitialPoints(custom, completed, unlocked);
      stored := stored.(points := Some(totalPoints));
    }

    /** `checkAchievements`: one pass over the catalogue in order. The
        "already unlocked" test reads the list as it was when the pass
        began, the state updates take effect together once the pass is
        over, and every unlock writes the new total to storage. */
    method CheckAchievements()
      modifies this
      ensures State() == AchievementPass(old(State()))
      ensures unlocked == old(unlocked) ==> stored == old(stored)
      ensures unlocked != old(unlocked) ==> stored == old(stored).(points := Some(totalPoints))
    {
      var done, before, points := completed, unlocked, totalPoints;
      var nextUnlocked, nextPoints, storedPoints := before, points, stored.points;
      var i := 0;
      while i < |Achievements|
        modifies {}
        invariant 0 <= i <= |Achievements|
        invariant PassProgress(i, before, done, points, nextUnlocked, nextPoints)
        invariant |nextUnlocked| >= |before|
        invariant storedPoints == if |nextUnlocked| == |before| then stored.points else Some(nextPoints)
      {
        var a := Achievements[i];
        PassProgressStep(i, before, done, points, nextUnlocked, nextPoints);
        if a.id !in before && Condition(a, done, points) {
          nextUnlocked := nextUnlocked + [a.id];
          nextPoints := nextPoints + a.points;
          storedPoints := Some(nextPoints);
        }
        i := i + 1;
      }
      PassProgressDone(State(), nextUnlocked, nextPoints);
      unlocked, totalPoints := nextUnlocked, nextPoints;
      stored := stored.(points := storedPoints);
    }

    /** The effect cascade after a mutation, run to its fixed point:
        recompute, achievement pass, and every key written back. */
    method Settle()
      modifies this
      ensures State() == Progress.Settle(old(State()))
      ensures stored == Persist(old(stored), State())
      ensures Settled()
    {
      RecomputePoints();
      CheckAchievements();
      stored := Persist(stored, State());
    }
  }
}
