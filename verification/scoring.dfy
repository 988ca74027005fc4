/** Scores for the ranked answers and the leaderboard update
    (SharpJackApi/Services/GameService.cs:212-229). */
module Scoring {
  import opened Outcomes
  import opened Models
  import opened Ranking

  /** Whole seconds between the submission and the deadline: the bonus for
      answering early. */
  function TimeBonus(a: Answer, activeUntil: int): int {
    activeUntil - a.submitTime
  }

  /** The scoring loop: `count` starts at the number of answers and drops by
      one per answer, and each answer scores `count` plus its time bonus.
      Closed form: the answer at 0-based position `i` scores `count - i` plus
      its bonus, and nothing but the score changes. */
  function ScoreFrom(ranked: seq<Answer>, count: int, activeUntil: int): (r: seq<Answer>)
    ensures |r| == |ranked|
    ensures forall i :: 0 <= i < |r| ==>
              r[i] == ranked[i].(score := count - i + TimeBonus(ranked[i], activeUntil))
    decreases |ranked|
  {
    if |ranked| == 0 then []
    else
      [ranked[0].(score := count + TimeBonus(ranked[0], activeUntil))]
        + ScoreFrom(ranked[1..], count - 1, activeUntil)
  }

  /** The answers ranked by closeness to `correct` and scored: the k-th
      (1-based) of n scores n - k + 1 plus its time bonus. The result is
      the submitted answers in their stable ranking (see
      `OrderByClosenessIsStableSort`) with only the score changed. */
  function ScoreAnswers(answers: seq<Answer>, correct: int, activeUntil: int): (r: seq<Answer>)
    ensures |r| == |answers|
    ensures Ranked(r, correct)
    ensures forall i :: 0 <= i < |r| ==>
              r[i].score == |answers| - i + TimeBonus(r[i], activeUntil)
    ensures |OrderByCloseness(answers, correct)| == |r|
    ensures forall i :: 0 <= i < |r| ==>
              r[i] == OrderByCloseness(answers, correct)[i].(score := r[i].score)
  {
    var ranked := OrderByCloseness(answers, correct);
    OrderByClosenessIsStableSort(answers, correct);
    assert |ranked| == |multiset(ranked)| == |answers|;
    var r := ScoreFrom(ranked, |ranked|, activeUntil);
    assert forall i :: 0 <= i < |r| ==> Distance(r[i], correct) == Distance(ranked[i], correct);
    assert Ranked(r, correct);
    r
  }

  /** Between two scored answers, the strictly closer one that was submitted
      no later scores strictly more. */
  lemma CloserAnswerScoresHigher(answers: seq<Answer>, correct: int, activeUntil: int, i: nat, j: nat)
    requires var r := ScoreAnswers(answers, correct, activeUntil);
             i < |r| && j < |r|
             && Distance(r[i], correct) < Distance(r[j], correct)
             && r[i].submitTime <= r[j].submitTime
    ensures ScoreAnswers(answers, correct, activeUntil)[i].score
          > ScoreAnswers(answers, correct, activeUntil)[j].score
  {
  }

  /** The position of the first answer given by `playerId`, as `First` finds it. */
  function FirstBy(s: seq<Answer>, playerId: int): (r: Option<nat>)
    ensures r.None? <==> forall k :: 0 <= k < |s| ==> s[k].playerId != playerId
    ensures r.Some? ==> r.value < |s| && s[r.value].playerId == playerId
                        && forall k :: 0 <= k < r.value ==> s[k].playerId != playerId
    decreases |s|
  {
    if |s| == 0 then None
    else if s[0].playerId == playerId then Some(0)
    else
      match FirstBy(s[1..], playerId)
      case None => None
      case Some(k) => Some(k + 1)
  }

  /** Did `playerId` answer at all? */
  ghost predicate Answered(s: seq<Answer>, playerId: int) {
    exists k :: 0 <= k < |s| && s[k].playerId == playerId
  }

  /** Ranking and scoring neither add nor lose anyone's answer. */
  lemma AnsweredAfterScoring(answers: seq<Answer>, correct: int, activeUntil: int, playerId: int)
    ensures Answered(ScoreAnswers(answers, correct, activeUntil), playerId) <==> Answered(answers, playerId)
  {
    var ranked := OrderByCloseness(answers, correct);
    var r := ScoreAnswers(answers, correct, activeUntil);
    OrderByClosenessIsStableSort(answers, correct);
    assert forall i :: 0 <= i < |r| ==> r[i].playerId == ranked[i].playerId;
    if Answered(answers, playerId) {
      var j :| 0 <= j < |answers| && answers[j].playerId == playerId;
      assert answers[j] in multiset(ranked);
      var i :| 0 <= i < |ranked| && ranked[i] == answers[j];
      assert r[i].playerId == playerId;
    }
    if Answered(r, playerId) {
      var i :| 0 <= i < |r| && r[i].playerId == playerId;
      assert ranked[i] in multiset(answers);
      var j :| 0 <= j < |answers| && answers[j] == ranked[i];
    }
  }

  /** The leaderboard update: every row except the asker's gains the score
      of that player's first answer in ranking order; the asker's row is left
      alone. A row whose player gave no answer makes `First` throw, which
      here fails the whole update. */
  function UpdateRows(rows: seq<Row>, scored: seq<Answer>, asker: nat): (r: Result<seq<Row>>)
    ensures r.Success? <==> forall i :: 0 <= i < |rows| && rows[i].playerId != asker ==>
                              Answered(scored, rows[i].playerId)
    ensures r.Failure? ==> r.error == NoAnswer
    ensures r.Success? ==> |r.value| == |rows|
    ensures r.Success? ==> forall i :: 0 <= i < |rows| ==>
              && r.value[i].playerId == rows[i].playerId
              && (rows[i].playerId == asker ==> r.value[i] == rows[i])
              && (rows[i].playerId != asker ==>
                    r.value[i].playerScore == rows[i].playerScore
                      + scored[FirstBy(scored, rows[i].playerId).value].score)
    decreases |rows|
  {
    if |rows| == 0 then Success([])
    else
      var rest := UpdateRows(rows[1..], scored, asker);
      var head := if rows[0].playerId == asker then Success(rows[0])
                  else match FirstBy(scored, rows[0].playerId)
                    case None => Failure(NoAnswer)
                    case Some(k) => Success(rows[0].(playerScore := rows[0].playerScore + scored[k].score));
      if head.Failure? then
        Failure(NoAnswer)
      else if rest.Failure? then
        ghost var k :| 0 <= k < |rows[1..]| && rows[1..][k].playerId != asker
                       && !Answered(scored, rows[1..][k].playerId);
        assert rows[k + 1] == rows[1..][k];
        rest
      else
        var r := [head.value] + rest.value;
        assert forall i :: 0 <= i < |rows| && rows[i].playerId != asker ==> Answered(scored, rows[i].playerId) by {
          forall i | 0 <= i < |rows| && rows[i].playerId != asker
            ensures Answered(scored, rows[i].playerId)
          {
            if i > 0 { assert rows[i] == rows[1..][i - 1]; }
          }
        }
        assert forall i :: 1 <= i < |rows| ==> rows[i] == rows[1..][i - 1] && r[i] == rest.value[i - 1];
        Success(r)
  }
}
