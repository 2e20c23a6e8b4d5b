/** The progress engine as values: the session state, each handler as a
    function from the old state to the new one, the settle step that stands
    for the effect cascade, the load-time daily reset, and what they keep. */
module Progress {
  import opened Catalogue
  import opened Points

  /** The four pieces of in-memory state of the component. */
  datatype ProgressState = ProgressState(
    completed: seq<int>,
    totalPoints: int,
    unlocked: seq<int>,
    custom: seq<Challenge>)

  /** The persisted key-value snapshot, one optional entry per key
      (`completedChallenges`, `totalPoints`, `unlockedAchievements`,
      `customChallenges`, `lastUpdateDate`); None is a missing key. */
  datatype Stored = Stored(
    completed: Option<seq<int>>,
    points: Option<int>,
    achievements: Option<seq<int>>,
    custom: Option<seq<Challenge>>,
    lastUpdateDate: Option<string>)

  /** The add-challenge form: an empty string stands for a missing field. */
  datatype Draft = Draft(
    title: string,
    description: string,
    category: Category,
    difficulty: Difficulty,
    points: int)

  /** `Math.max(0, x)`. */
  function Max0(x: int): (r: int)
    ensures r >= 0 && r >= x
    ensures r == x || r == 0
  {
    if x < 0 then 0 else x
  }

  /** The cached total agrees with the total recomputed from scratch. */
  predicate Reconciled(s: ProgressState) {
    s.totalPoints == CalculateInitialPoints(s.custom, s.completed, s.unlocked)
  }

  ghost predicate NoDuplicates(xs: seq<int>) {
    forall x :: Count(xs, x) <= 1
  }

  /** The state right after the component mounts: empty progress, custom
      challenges read from storage. */
  function Initial(st: Stored): (s: ProgressState)
    ensures s.completed == [] && s.totalPoints == 0 && s.unlocked == []
    ensures st.custom.Some? ==> s.custom == st.custom.value
    ensures st.custom.None? ==> s.custom == []
  {
    ProgressState([], 0, [], st.custom.GetOr([]))
  }

  // ---------------------------------------------------------------------
  // Handlers

  /** `handleChallengeComplete`: flip the id's membership and move the points
      by the first matching challenge's value, clamped at zero. */
  function ToggleCompletion(s: ProgressState, id: int): (r: ProgressState)
    ensures r.unlocked == s.unlocked && r.custom == s.custom
    ensures id in r.completed <==> id !in s.completed
    ensures forall y :: y != id ==> (y in r.completed <==> y in s.completed)
    ensures id !in s.completed ==> |r.completed| == |s.completed| + 1 && r.completed[..|s.completed|] == s.completed
    ensures id in s.completed ==> |r.completed| == |s.completed| - Count(s.completed, id)
    ensures id in s.completed ==> r.completed == RemoveId(s.completed, id)
    ensures FindChallenge(AllChallenges(s.custom), id).None? ==> r.totalPoints == s.totalPoints
    ensures FindChallenge(AllChallenges(s.custom), id).Some? ==>
              var p := FindChallenge(AllChallenges(s.custom), id).value.points;
              r.totalPoints == Max0(s.totalPoints + (if id in s.completed then -p else p))
  {
    var isCompleted := id in s.completed;
    var completed := if isCompleted then RemoveId(s.completed, id) else s.completed + [id];
    RemoveIdMembers(s.completed, id);
    var points :=
      match FindChallenge(AllChallenges(s.custom), id)
      case Some(c) => Max0(s.totalPoints + (if isCompleted then -c.points else c.points))
      case None => s.totalPoints;
    s.(completed := completed, totalPoints := points)
  }

  /** The custom challenge `handleAddChallenge` builds from the form. */
  function NewCustomChallenge(d: Draft, newId: int): (c: Challenge)
    ensures c.id == newId && c.isCustom && !c.isQadrNight
    ensures c.title == d.title && c.description == d.description
    ensures c.category == d.category && c.difficulty == d.difficulty && c.points == d.points
  {
    Challenge(newId, d.title, d.description, d.category, d.difficulty, d.points, false, true)
  }

  /** `handleAddChallenge`; `newId` stands for `Date.now()`. */
  function AddCustomChallenge(s: ProgressState, d: Draft, newId: int): (r: ProgressState)
    ensures d.title == [] || d.description == [] ==> r == s
    ensures d.title != [] && d.description != [] ==>
              && |r.custom| == |s.custom| + 1
              && r.custom[..|s.custom|] == s.custom
              && r.custom[|s.custom|] == NewCustomChallenge(d, newId)
              && r.completed == s.completed
              && r.totalPoints == s.totalPoints
              && r.unlocked == s.unlocked
  {
    if d.title != [] && d.description != [] then
      s.(custom := s.custom + [NewCustomChallenge(d, newId)])
    else s
  }

  /** `handleDeleteChallenge`: only ids in the custom list are acted on. */
  function DeleteCustomChallenge(s: ProgressState, id: int): (r: ProgressState)
    ensures FindChallenge(s.custom, id).None? ==> r == s
    ensures FindChallenge(s.custom, id).Some? ==>
              && r.completed == RemoveId(s.completed, id)
              && r.custom == RemoveChallenge(s.custom, id)
              && id !in r.completed
              && (forall y :: y != id ==> (y in r.completed <==> y in s.completed))
              && (forall c :: c in r.custom <==> c in s.custom && c.id != id)
              && r.unlocked == s.unlocked
              && r.totalPoints == if id in s.completed
                                  then Max0(s.totalPoints - FindChallenge(s.custom, id).value.points)
                                  else s.totalPoints
  {
    match FindChallenge(s.custom, id)
    case None => s
    case Some(c) =>
      var points := if id in s.completed then Max0(s.totalPoints - c.points) else s.totalPoints;
      RemoveIdMembers(s.completed, id);
      RemoveChallengeMembers(s.custom, id);
      ProgressState(RemoveId(s.completed, id), points, s.unlocked, RemoveChallenge(s.custom, id))
  }

  // ---------------------------------------------------------------------
  // Achievement pass and settling

  /** Ids of the achievements of `achs`, in catalogue order, that are not in
      `unlocked` and whose condition holds. */
  function NewUnlocks(achs: seq<Achievement>, unlocked: seq<int>, completed: seq<int>, points: int): (ids: seq<int>)
    ensures forall x :: x in ids ==> x !in unlocked
  {
    if achs == [] then []
    else
      var init := achs[..|achs| - 1];
      var a := achs[|achs| - 1];
      var prefix := NewUnlocks(init, unlocked, completed, points);
      if a.id !in unlocked && Condition(a, completed, points) then prefix + [a.id] else prefix
  }

  /** `checkAchievements`: every achievement whose condition holds and that
      is not yet unlocked is appended and credits its points. */
  function AchievementPass(s: ProgressState): (r: ProgressState)
    ensures r.completed == s.completed && r.custom == s.custom
    ensures |r.unlocked| >= |s.unlocked| && r.unlocked[..|s.unlocked|] == s.unlocked
    ensures r.totalPoints == s.totalPoints + SumAchievementPoints(r.unlocked[|s.unlocked|..])
    ensures r.totalPoints >= s.totalPoints
  {
    var gained := NewUnlocks(Achievements, s.unlocked, s.completed, s.totalPoints);
    SumAchievementPointsNonNegative(gained);
    assert (s.unlocked + gained)[..|s.unlocked|] == s.unlocked;
    assert (s.unlocked + gained)[|s.unlocked|..] == gained;
    s.(unlocked := s.unlocked + gained, totalPoints := s.totalPoints + SumAchievementPoints(gained))
  }

  /** The pass appends the new unlocks and credits exactly their points. */
  lemma AchievementPassResult(s: ProgressState)
    ensures var gained := NewUnlocks(Achievements, s.unlocked, s.completed, s.totalPoints);
            AchievementPass(s) == s.(unlocked := s.unlocked + gained,
                                     totalPoints := s.totalPoints + SumAchievementPoints(gained))
  {
  }

  /** After the pass a catalogue achievement is unlocked exactly when it was
      unlocked before or its completion threshold is met. */
  lemma AchievementPassUnlocks(s: ProgressState)
    ensures forall i :: 0 <= i < |Achievements| ==>
              (Achievements[i].id in AchievementPass(s).unlocked <==>
                 Achievements[i].id in s.unlocked || |s.completed| >= Achievements[i].threshold)
  {
    NewUnlocksOfCatalogue(s.unlocked, s.completed, s.totalPoints);
    AchievementPassResult(s);
  }

  /** The newly unlocked ids are those of the achievements that are locked
      and whose condition holds. */
  lemma {:induction false} NewUnlocksMembers(achs: seq<Achievement>, unlocked: seq<int>, completed: seq<int>, points: int)
    ensures forall i :: 0 <= i < |achs| && achs[i].id !in unlocked && Condition(achs[i], completed, points)
              ==> achs[i].id in NewUnlocks(achs, unlocked, completed, points)
    ensures forall x :: x in NewUnlocks(achs, unlocked, completed, points) ==>
              exists i :: 0 <= i < |achs| && achs[i].id == x && Condition(achs[i], completed, points)
  {
    if achs != [] {
      var init := achs[..|achs| - 1];
      NewUnlocksMembers(init, unlocked, completed, points);
      var prefix := NewUnlocks(init, unlocked, completed, points);
      forall x | x in NewUnlocks(achs, unlocked, completed, points)
        ensures exists i :: 0 <= i < |achs| && achs[i].id == x && Condition(achs[i], completed, points)
      {
        if x in prefix {
          var i :| 0 <= i < |init| && init[i].id == x && Condition(init[i], completed, points);
          assert achs[i] == init[i];
        } else {
          assert achs[|achs| - 1].id == x;
        }
      }
    }
  }

  /** Over the catalogue, whose ids are distinct, an achievement is newly
      unlocked exactly when it was locked and its condition holds. */
  lemma NewUnlocksOfCatalogue(unlocked: seq<int>, completed: seq<int>, points: int)
    ensures forall i :: 0 <= i < |Achievements| ==>
              (Achievements[i].id in NewUnlocks(Achievements, unlocked, completed, points) <==>
                 Achievements[i].id !in unlocked && Condition(Achievements[i], completed, points))
  {
    var gained := NewUnlocks(Achievements, unlocked, completed, points);
    NewUnlocksMembers(Achievements, unlocked, completed, points);
    forall i | 0 <= i < |Achievements| && Achievements[i].id in gained
      ensures Condition(Achievements[i], completed, points)
    {
      var j :| 0 <= j < |Achievements| && Achievements[j].id == Achievements[i].id
               && Condition(Achievements[j], completed, points);
      assert j == i;
    }
  }

  /** The recompute effect: the total rebuilt from the two lists. */
  function Recompute(s: ProgressState): (r: ProgressState)
    ensures Reconciled(r)
    ensures r.completed == s.completed && r.unlocked == s.unlocked && r.custom == s.custom
  {
    s.(totalPoints := CalculateInitialPoints(s.custom, s.completed, s.unlocked))
  }

  /** The cascade of effects after a mutation, run to its fixed point. */
  function Settle(s: ProgressState): (r: ProgressState)
    ensures Reconciled(r)
    ensures r.completed == s.completed && r.custom == s.custom
    ensures |r.unlocked| >= |s.unlocked| && r.unlocked[..|s.unlocked|] == s.unlocked
  {
    var t := Recompute(s);
    var gained := NewUnlocks(Achievements, t.unlocked, t.completed, t.totalPoints);
    SumOverAppend(t.unlocked, gained, AchievementPointsFn());
    AchievementPass(t)
  }

  /** The persistence effects: every key rewritten from the state. */
  function Persist(st: Stored, s: ProgressState): (r: Stored)
    ensures r.lastUpdateDate == st.lastUpdateDate
    ensures r.completed == Some(s.completed) && r.points == Some(s.totalPoints)
    ensures r.achievements == Some(s.unlocked) && r.custom == Some(s.custom)
  {
    st.(completed := Some(s.completed), points := Some(s.totalPoints),
        achievements := Some(s.unlocked), custom := Some(s.custom))
  }

  // ---------------------------------------------------------------------
  // Daily reset on load

  /** In-memory effect of the first-mount effect. */
  function LoadState(s: ProgressState, st: Stored, today: string): (r: ProgressState)
    ensures r.unlocked == (if st.lastUpdateDate == Some(today) && st.achievements.Some?
                           then st.achievements.value else s.unlocked)
    ensures r.custom == s.custom
    ensures st.lastUpdateDate != Some(today) ==> r.completed == [] && r.totalPoints == 0
    ensures st.lastUpdateDate == Some(today) ==>
              && r.completed == (if st.completed.Some? then st.completed.value else s.completed)
              && r.totalPoints == (if st.points.Some? then st.points.value else s.totalPoints)
  {
    if st.lastUpdateDate != Some(today) then
      s.(completed := [], totalPoints := 0)
    else
      s.(completed := st.completed.GetOr(s.completed),
         totalPoints := st.points.GetOr(s.totalPoints),
         unlocked := st.achievements.GetOr(s.unlocked))
  }

  /** Storage effect of the first-mount effect. */
  function LoadStored(st: Stored, today: string): (r: Stored)
    ensures r.lastUpdateDate == Some(today)
    ensures st.lastUpdateDate == Some(today) ==> r == st
    ensures st.lastUpdateDate != Some(today) ==>
              r.completed == Some([]) && r.points == Some(0)
              && r.achievements == st.achievements && r.custom == st.custom
  {
    if st.lastUpdateDate != Some(today) then
      st.(completed := Some([]), points := Some(0), lastUpdateDate := Some(today))
    else st
  }

  // ---------------------------------------------------------------------
  // Lemmas: counting helpers

  lemma CountAppend(xs: seq<int>, ys: seq<int>, x: int)
    ensures Count(xs + ys, x) == Count(xs, x) + Count(ys, x)
  {
    if ys == [] {
      assert xs + ys == xs;
    } else {
      var zs := xs + ys;
      assert zs[..|zs| - 1] == xs + ys[..|ys| - 1];
      CountAppend(xs, ys[..|ys| - 1], x);
    }
  }

  lemma {:induction false} CountRemoveId(xs: seq<int>, x: int, y: int)
    ensures Count(RemoveId(xs, x), y) == if y == x then 0 else Count(xs, y)
  {
    if xs != [] {
      var init := xs[..|xs| - 1];
      CountRemoveId(init, x, y);
      if xs[|xs| - 1] != x {
        CountAppend(RemoveId(init, x), [xs[|xs| - 1]], y);
        assert [xs[|xs| - 1]][..0] == [];
      }
    }
  }

  lemma CountSingle(a: int, x: int)
    ensures Count([a], x) == if a == x then 1 else 0
  {
    assert [a][..0] == [];
  }

  // ---------------------------------------------------------------------
  // Lemmas: toggling

  /** Two toggles of a not-yet-completed id, with no settling in between,
      restore both the list and the points, as long as the points were not
      clamped on the way. */
  lemma ToggleTwiceRestores(s: ProgressState, id: int)
    requires id !in s.completed
    requires s.totalPoints >= 0
    requires ChallengePoints(AllChallenges(s.custom), id) >= 0
    ensures ToggleCompletion(ToggleCompletion(s, id), id) == s
  {
    var t := ToggleCompletion(s, id);
    assert t.completed == s.completed + [id];
    RemoveIdAppend(s.completed, [id], id);
    RemoveIdAbsent(s.completed, id);
    assert RemoveId([id], id) == [] by {
      assert [id][..0] == [];
    }
    assert RemoveId(t.completed, id) == s.completed;
  }

  /** Two toggles of a completed id, undo then redo, with no settling in
      between: the same ids are completed, the id moves to the end of the
      list, and the points are restored when the undo was not clamped. */
  lemma UndoRedoRestores(s: ProgressState, id: int)
    requires id in s.completed
    requires 0 <= ChallengePoints(AllChallenges(s.custom), id) <= s.totalPoints
    ensures var r := ToggleCompletion(ToggleCompletion(s, id), id);
            && (forall y :: y in r.completed <==> y in s.completed)
            && r.completed == RemoveId(s.completed, id) + [id]
            && r.totalPoints == s.totalPoints
            && r.unlocked == s.unlocked && r.custom == s.custom
  {
  }

  /** The completed list never gains a duplicate through toggling. */
  lemma ToggleKeepsNoDuplicates(s: ProgressState, id: int)
    requires NoDuplicates(s.completed)
    ensures NoDuplicates(ToggleCompletion(s, id).completed)
  {
    var r := ToggleCompletion(s, id);
    forall x ensures Count(r.completed, x) <= 1 {
      if id in s.completed {
        CountRemoveId(s.completed, id, x);
      } else {
        CountAppend(s.completed, [id], x);
        CountSingle(id, x);
      }
    }
  }

  /** The incremental update of the hot path agrees with the full recompute:
      a reconciled state stays reconciled after a toggle. */
  lemma ToggleKeepsReconciled(s: ProgressState, id: int)
    requires Reconciled(s)
    requires NonNegativePoints(s.custom)
    requires Count(s.completed, id) <= 1
    ensures Reconciled(ToggleCompletion(s, id))
  {
    SumAchievementPointsNonNegative(s.unlocked);
    ChallengeFoldNonNegative(s.custom, s.completed);
    AllChallengesNonNegative(s.custom);
    ChallengePointsNonNegative(AllChallenges(s.custom), id);
    if id in s.completed {
      UncompleteReconciled(s, id);
    } else {
      CompleteReconciled(s, id);
    }
  }

  lemma UncompleteReconciled(s: ProgressState, id: int)
    requires Reconciled(s)
    requires id in s.completed && Count(s.completed, id) <= 1
    requires SumAchievementPoints(s.unlocked) >= 0
    requires forall i :: 0 <= i < |s.completed| ==> ChallengePoints(AllChallenges(s.custom), s.completed[i]) >= 0
    ensures Reconciled(ToggleCompletion(s, id))
  {
    var f := ChallengePointsFn(AllChallenges(s.custom));
    var v := ChallengePoints(AllChallenges(s.custom), id);
    var r := ToggleCompletion(s, id);
    assert r.completed == RemoveId(s.completed, id);
    SumOverRemoveUnique(s.completed, id, f);
    SumOverAtLeastMember(s.completed, id, f);
    assert SumOver(r.completed, f) == SumOver(s.completed, f) - v;
  }

  lemma CompleteReconciled(s: ProgressState, id: int)
    requires Reconciled(s)
    requires id !in s.completed
    requires SumAchievementPoints(s.unlocked) >= 0
    requires ChallengePoints(AllChallenges(s.custom), id) >= 0
    requires forall i :: 0 <= i < |s.completed| ==> ChallengePoints(AllChallenges(s.custom), s.completed[i]) >= 0
    ensures Reconciled(ToggleCompletion(s, id))
  {
    var f := ChallengePointsFn(AllChallenges(s.custom));
    var r := ToggleCompletion(s, id);
    assert r.completed == s.completed + [id];
    SumOverAppend(s.completed, [id], f);
    assert SumOver([id], f) == f(id) by { assert [id][..0] == []; }
    SumOverBounded(s.completed, f);
  }

  // ---------------------------------------------------------------------
  // Lemmas: adding and deleting custom challenges

  /** Adding a challenge whose id is not already in the completed list
      leaves the recomputed total where it was. */
  lemma AddKeepsReconciled(s: ProgressState, d: Draft, newId: int)
    requires Reconciled(s)
    requires newId !in s.completed
    ensures Reconciled(AddCustomChallenge(s, d, newId))
  {
    var r := AddCustomChallenge(s, d, newId);
    if r != s {
      var c := NewCustomChallenge(d, newId);
      assert AllChallenges(r.custom) == AllChallenges(s.custom) + [c];
      forall i | 0 <= i < |s.completed|
        ensures ChallengePointsFn(AllChallenges(r.custom))(s.completed[i])
             == ChallengePointsFn(AllChallenges(s.custom))(s.completed[i])
      {
        FindAppendOne(AllChallenges(s.custom), c, s.completed[i]);
      }
      SumOverCongruent(s.completed, ChallengePointsFn(AllChallenges(r.custom)),
                       ChallengePointsFn(AllChallenges(s.custom)));
    }
  }

  /** Deleting a completed custom challenge takes exactly its points off a
      reconciled total; deleting one that is not completed changes nothing
      in the total. */
  lemma DeleteKeepsReconciled(s: ProgressState, id: int)
    requires Reconciled(s)
    requires NonNegativePoints(s.custom)
    requires Count(s.completed, id) <= 1
    requires FindChallenge(BuiltinChallenges, id).None?
    ensures Reconciled(DeleteCustomChallenge(s, id))
    ensures FindChallenge(s.custom, id).Some? && id in s.completed ==>
              DeleteCustomChallenge(s, id).totalPoints == s.totalPoints - FindChallenge(s.custom, id).value.points
  {
    if FindChallenge(s.custom, id).Some? {
      var c := FindChallenge(s.custom, id).value;
      var f := ChallengePointsFn(AllChallenges(s.custom));
      var rest := RemoveId(s.completed, id);
      FindConcat(BuiltinChallenges, s.custom, id);
      assert f(id) == c.points;
      DeleteKeepsOtherLookups(s.custom, id, rest);
      SumOverRemoveUnique(s.completed, id, f);
      if id in s.completed {
        ChallengeFoldNonNegative(s.custom, s.completed);
        SumOverAtLeastMember(s.completed, id, f);
        SumAchievementPointsNonNegative(s.unlocked);
      }
    }
  }

  /** Once the id is gone from the completed list, removing its custom
      entries does not change what any remaining completed id is worth. */
  lemma DeleteKeepsOtherLookups(custom: seq<Challenge>, id: int, rest: seq<int>)
    requires id !in rest
    ensures SumOver(rest, ChallengePointsFn(AllChallenges(RemoveChallenge(custom, id))))
         == SumOver(rest, ChallengePointsFn(AllChallenges(custom)))
  {
    var f := ChallengePointsFn(AllChallenges(custom));
    var g := ChallengePointsFn(AllChallenges(RemoveChallenge(custom, id)));
    forall i | 0 <= i < |rest| ensures g(rest[i]) == f(rest[i]) {
      var y := rest[i];
      FindConcat(BuiltinChallenges, custom, y);
      FindConcat(BuiltinChallenges, RemoveChallenge(custom, id), y);
      FindAfterRemove(custom, id, y);
    }
    SumOverCongruent(rest, g, f);
  }

  /** Deleting keeps the completed list free of duplicates. */
  lemma DeleteKeepsNoDuplicates(s: ProgressState, id: int)
    requires NoDuplicates(s.completed)
    ensures NoDuplicates(DeleteCustomChallenge(s, id).completed)
  {
    var r := DeleteCustomChallenge(s, id);
    forall x ensures Count(r.completed, x) <= 1 {
      CountRemoveId(s.completed, id, x);
    }
  }

  // ---------------------------------------------------------------------
  // Lemmas: achievements and settling

  lemma {:induction false} NewUnlocksEmpty(achs: seq<Achievement>, unlocked: seq<int>, completed: seq<int>, points: int)
    requires forall i :: 0 <= i < |achs| && Condition(achs[i], completed, points) ==> achs[i].id in unlocked
    ensures NewUnlocks(achs, unlocked, completed, points) == []
  {
    if achs != [] {
      NewUnlocksEmpty(achs[..|achs| - 1], unlocked, completed, points);
    }
  }

  /** One more achievement of the catalogue extends the unlock list by its
      id exactly when it is not unlocked and its condition holds. */
  lemma NewUnlocksStep(i: nat, unlocked: seq<int>, completed: seq<int>, points: int)
    requires i < |Achievements|
    ensures NewUnlocks(Achievements[..i + 1], unlocked, completed, points)
         == NewUnlocks(Achievements[..i], unlocked, completed, points)
            + (if Achievements[i].id !in unlocked && Condition(Achievements[i], completed, points)
               then [Achievements[i].id] else [])
  {
    assert Achievements[..i + 1][..i] == Achievements[..i];
  }

  /** One step of the pass over the catalogue: the unlock list and the
      points it credits grow by the achievement at `i` exactly when it is
      locked and its condition holds. */
  lemma PassStep(i: nat, unlocked: seq<int>, completed: seq<int>, points: int)
    requires i < |Achievements|
    ensures var gained := NewUnlocks(Achievements[..i], unlocked, completed, points);
            var next := NewUnlocks(Achievements[..i + 1], unlocked, completed, points);
            if Achievements[i].id !in unlocked && Condition(Achievements[i], completed, points) then
              next == gained + [Achievements[i].id]
              && SumAchievementPoints(next) == SumAchievementPoints(gained) + Achievements[i].points
            else
              next == gained
  {
    var gained := NewUnlocks(Achievements[..i], unlocked, completed, points);
    NewUnlocksStep(i, unlocked, completed, points);
    if Achievements[i].id !in unlocked && Condition(Achievements[i], completed, points) {
      SumOverAppend(gained, [Achievements[i].id], AchievementPointsFn());
      AchievementPointsOfCatalogue(i);
    }
  }

  /** What the pass has built after the first `i` achievements: the unlock
      list extended and the total credited by the unlocks so far. */
  predicate PassProgress(i: nat, before: seq<int>, completed: seq<int>, points: int,
                         unlocked: seq<int>, total: int)
    requires i <= |Achievements|
  {
    var gained := NewUnlocks(Achievements[..i], before, completed, points);
    unlocked == before + gained && total == points + SumAchievementPoints(gained)
  }

  /** One iteration of the pass keeps `PassProgress`. */
  lemma PassProgressStep(i: nat, before: seq<int>, completed: seq<int>, points: int,
                         unlocked: seq<int>, total: int)
    requires i < |Achievements|
    requires PassProgress(i, before, completed, points, unlocked, total)
    ensures var a := Achievements[i];
            if a.id !in before && Condition(a, completed, points) then
              PassProgress(i + 1, before, completed, points, unlocked + [a.id], total + a.points)
              && |unlocked + [a.id]| > |before|
            else
              PassProgress(i + 1, before, completed, points, unlocked, total)
  {
    PassStep(i, before, completed, points);
  }

  /** Once the whole catalogue has been visited, `PassProgress` is the
      result of the pass. */
  lemma PassProgressDone(s: ProgressState, unlocked: seq<int>, total: int)
    requires PassProgress(|Achievements|, s.unlocked, s.completed, s.totalPoints, unlocked, total)
    ensures AchievementPass(s) == s.(unlocked := unlocked, totalPoints := total)
    ensures unlocked == s.unlocked <==> |unlocked| == |s.unlocked|
  {
    assert Achievements[..|Achievements|] == Achievements;
    AchievementPassResult(s);
  }

  /** Looking up a catalogue achievement by its id finds it. */
  lemma AchievementPointsOfCatalogue(i: nat)
    requires i < |Achievements|
    ensures AchievementPoints(Achievements[i].id) == Achievements[i].points
    ensures SumAchievementPoints([Achievements[i].id]) == Achievements[i].points
  {
    var x := Achievements[i].id;
    assert AchievementPoints(x) == Achievements[i].points by {
      assert i == 0 || i == 1 || i == 2;
    }
    assert [x][..0] == [];
    assert SumOver([x], AchievementPointsFn()) == SumOver([], AchievementPointsFn()) + AchievementPointsFn()(x);
  }

  /** A second achievement pass over the result of the first changes nothing:
      no achievement is unlocked or credited twice. */
  lemma AchievementPassIdempotent(s: ProgressState)
    ensures AchievementPass(AchievementPass(s)) == AchievementPass(s)
  {
    var r := AchievementPass(s);
    AchievementPassUnlocks(s);
    NewUnlocksEmpty(Achievements, r.unlocked, r.completed, r.totalPoints);
    assert SumAchievementPoints([]) == 0;
  }

  /** The achievement ids are distinct, so each id can be appended once. */
  lemma {:induction false} NewUnlocksNoDuplicates(k: nat, unlocked: seq<int>, completed: seq<int>, points: int)
    requires k <= |Achievements|
    ensures NoDuplicates(NewUnlocks(Achievements[..k], unlocked, completed, points))
  {
    var ids := NewUnlocks(Achievements[..k], unlocked, completed, points);
    if k > 0 {
      var init := Achievements[..k][..k - 1];
      assert init == Achievements[..k - 1];
      NewUnlocksNoDuplicates(k - 1, unlocked, completed, points);
      var prefix := NewUnlocks(init, unlocked, completed, points);
      var a := Achievements[k - 1];
      forall x ensures Count(ids, x) <= 1 {
        if ids != prefix {
          assert ids == prefix + [a.id];
          CountAppend(prefix, [a.id], x);
          CountSingle(a.id, x);
          NewUnlocksMembers(init, unlocked, completed, points);
          assert a.id !in prefix;
        }
      }
    } else {
      assert ids == [];
    }
  }

  /** An achievement pass keeps the unlocked list free of duplicates. */
  lemma AchievementPassKeepsNoDuplicates(s: ProgressState)
    requires NoDuplicates(s.unlocked)
    ensures NoDuplicates(AchievementPass(s).unlocked)
  {
    var gained := NewUnlocks(Achievements, s.unlocked, s.completed, s.totalPoints);
    assert Achievements[..|Achievements|] == Achievements;
    NewUnlocksNoDuplicates(|Achievements|, s.unlocked, s.completed, s.totalPoints);
    forall x ensures Count(s.unlocked + gained, x) <= 1 {
      CountAppend(s.unlocked, gained, x);
    }
  }

  /** Settling a settled state changes nothing. */
  lemma SettleIdempotent(s: ProgressState)
    ensures Settle(Settle(s)) == Settle(s)
  {
    var r := Settle(s);
    assert Recompute(r) == r;
    AchievementPassIdempotent(Recompute(s));
  }

  /** Once the cascade settles, a catalogue achievement is unlocked exactly
      when it was unlocked before or its completion threshold is met. */
  lemma SettleUnlocks(s: ProgressState)
    ensures forall i :: 0 <= i < |Achievements| ==>
              (Achievements[i].id in Settle(s).unlocked <==>
                 Achievements[i].id in s.unlocked || |s.completed| >= Achievements[i].threshold)
  {
    AchievementPassUnlocks(Recompute(s));
  }

  /** On the hot path the incremental toggle already has the settled total:
      the recompute step of the cascade finds nothing to repair. */
  lemma ToggleThenSettle(s: ProgressState, id: int)
    requires Reconciled(s)
    requires NonNegativePoints(s.custom)
    requires NoDuplicates(s.completed)
    ensures Settle(ToggleCompletion(s, id)) == AchievementPass(ToggleCompletion(s, id))
  {
    ToggleKeepsReconciled(s, id);
  }

  // ---------------------------------------------------------------------
  // Lemmas: loading

  /** Reloading on the day the progress was saved restores it unchanged. */
  lemma SameDayReloadRestores(st: Stored, s: ProgressState, today: string)
    requires st.lastUpdateDate == Some(today)
    ensures LoadState(Initial(Persist(st, s)), LoadStored(Persist(st, s), today), today) == s
  {
  }

  /** The reset stamps today's date, so a second load on the same day
      keeps whatever was saved since instead of resetting again. */
  lemma ResetOncePerDay(st: Stored, s: ProgressState, today: string)
    ensures var st' := Persist(LoadStored(st, today), s);
            LoadState(Initial(st'), LoadStored(st', today), today) == s
  {
    SameDayReloadRestores(LoadStored(st, today), s, today);
  }

  /** On a new day the mount state is empty: the reset clears completions
      and points, and the unlock list keeps its empty default because the
      saved one is not read. Settling finds nothing to unlock, so the first
      write stores an empty unlock list and every bonus has to be earned
      again. */
  lemma NewDayClearsUnlocks(st: Stored, today: string)
    requires st.lastUpdateDate != Some(today)
    ensures var s := LoadState(Initial(st), st, today);
            && s.completed == [] && s.totalPoints == 0 && s.unlocked == []
            && Settle(s) == s
            && Persist(LoadStored(st, today), Settle(s)).achievements == Some([])
  {
    var s := LoadState(Initial(st), st, today);
    assert Recompute(s) == s;
    NewUnlocksEmpty(Achievements, [], [], 0);
    AchievementPassResult(s);
  }

  // ---------------------------------------------------------------------
  // Worked examples

  /** A custom challenge worth -200 points. */
  function NegativeChallenge(): Challenge {
    Challenge(7000, "t", "d", Prayer, Easy, -200, false, true)
  }

  /** A custom challenge with negative points, completed from empty
      progress: the toggle clamps the total at zero, but the recompute of
      the cascade does not clamp, and the settled total is negative. */
  lemma NegativeCustomPointsExample()
    ensures var s := ToggleCompletion(ProgressState([], 0, [], [NegativeChallenge()]), 7000);
            s == ProgressState([7000], 0, [], [NegativeChallenge()]) && Settle(s).totalPoints == -100
  {
    NegativeToggleStep();
    NegativeSettleStep();
  }

  lemma NegativeLookup()
    ensures FindChallenge(AllChallenges([NegativeChallenge()]), 7000) == Some(NegativeChallenge())
  {
    assert forall i :: 0 <= i < |BuiltinChallenges| ==> BuiltinChallenges[i].id <= 10;
    assert FindChallenge(BuiltinChallenges, 7000).None?;
    assert FindChallenge([NegativeChallenge()], 7000) == Some(NegativeChallenge());
    FindConcat(BuiltinChallenges, [NegativeChallenge()], 7000);
  }

  lemma NegativeToggleStep()
    ensures ToggleCompletion(ProgressState([], 0, [], [NegativeChallenge()]), 7000)
         == ProgressState([7000], 0, [], [NegativeChallenge()])
  {
    NegativeLookup();
  }

  lemma NegativeSettleStep()
    ensures Settle(ProgressState([7000], 0, [], [NegativeChallenge()])).totalPoints == -100
  {
    var s := ProgressState([7000], 0, [], [NegativeChallenge()]);
    NegativeLookup();
    assert SumChallengePoints([NegativeChallenge()], [7000]) == -200;
    var t := Recompute(s);
    assert t.totalPoints == -200;
    assert NewUnlocks(Achievements, [], [7000], -200) == [1] by {
      var a1, a2, a3 := Achievements[0], Achievements[1], Achievements[2];
      assert [a1, a2, a3][..2] == [a1, a2] && [a1, a2][..1] == [a1] && [a1][..0] == [];
      assert NewUnlocks([a1], [], [7000], -200) == [1];
    }
    AchievementPointsOfCatalogue(0);
    AchievementPassResult(t);
  }

  /** From empty progress, completing challenge 1 (50 points) settles at
      150 points with achievement 1 unlocked. */
  lemma FirstCompletionExample()
    ensures var s := Settle(ToggleCompletion(ProgressState([], 0, [], []), 1));
            s.completed == [1] && s.totalPoints == 150 && s.unlocked == [1]
  {
    FirstToggleStep();
    FirstSettleStep();
  }

  /** Undoing the first completion after the cascade has settled keeps
      achievement 1 and its 100 bonus points: an undo never revokes an
      unlock, so complete-then-undo does not restore the points. */
  lemma CompleteUndoKeepsBonus()
    ensures var once := Settle(ToggleCompletion(ProgressState([], 0, [], []), 1));
            Settle(ToggleCompletion(once, 1)) == ProgressState([], 100, [1], [])
  {
    FirstCompletionExample();
    UndoFirstToggleStep();
    UndoFirstSettleStep();
  }

  lemma UndoFirstToggleStep()
    ensures ToggleCompletion(ProgressState([1], 150, [1], []), 1) == ProgressState([], 100, [1], [])
  {
    assert FindChallenge(AllChallenges([]), 1) == Some(BuiltinChallenges[0]);
    assert RemoveId([1], 1) == [] by { assert [1][..0] == []; }
  }

  lemma UndoFirstSettleStep()
    ensures Settle(ProgressState([], 100, [1], [])) == ProgressState([], 100, [1], [])
  {
    var t := ProgressState([], 100, [1], []);
    AchievementPointsOfCatalogue(0);
    assert Recompute(t) == t;
    NewUnlocksEmpty(Achievements, [1], [], 100);
    AchievementPassResult(t);
  }

  lemma FirstToggleStep()
    ensures ToggleCompletion(ProgressState([], 0, [], []), 1) == ProgressState([1], 50, [], [])
  {
    assert FindChallenge(AllChallenges([]), 1) == Some(BuiltinChallenges[0]);
  }

  lemma FirstSettleStep()
    ensures Settle(ProgressState([1], 50, [], [])) == ProgressState([1], 150, [1], [])
  {
    var t := ProgressState([1], 50, [], []);
    assert FindChallenge(AllChallenges([]), 1) == Some(BuiltinChallenges[0]);
    assert SumChallengePoints([], [1]) == 50 by { assert [1][..0] == []; }
    assert Recompute(t) == t;
    assert NewUnlocks(Achievements, [], [1], 50) == [1] by {
      var a1, a2, a3 := Achievements[0], Achievements[1], Achievements[2];
      assert [a1, a2, a3][..2] == [a1, a2] && [a1, a2][..1] == [a1] && [a1][..0] == [];
      assert NewUnlocks([a1], [], [1], 50) == [1];
    }
    AchievementPointsOfCatalogue(0);
  }
}
