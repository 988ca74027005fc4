/** The five-player unit test (SharpJackApi.UnitTests/SharpJackApiUnitTests.cs,
    `ManyPlayers`) replayed turn by turn: Frasier (0), Niles (1), Martin (2),
    Daphne (3) and Fred (4) each ask one question in join order, the other
    four answer in the same second, and the engine evaluates one second
    later. Every answer is therefore scored with a one-second bonus, and the
    k-th closest of the four scores 6 - k. */
module ManyPlayers {
  import opened Outcomes
  import opened Models
  import Contracts
  import opened GameService
  import opened Evaluation
  import opened Ranking
  import opened Scoring

  /** A one-round game for five players with one-second windows. */
  const ManyOptions := Contracts.GameOptions(0, 5, 1, 1, 1, 0)

  const Everyone: seq<nat> := [0, 1, 2, 3, 4]

  /** The leaderboard rows holding `scores` for players 0 to 4. */
  function ScoreRows(scores: seq<int>): (r: seq<Row>)
    ensures |r| == |scores| && forall p :: 0 <= p < |r| ==> r[p] == Row(scores[p], p)
  {
    seq(|scores|, p requires 0 <= p < |scores| => Row(scores[p], p))
  }

  /** Everyone has joined and nobody has started yet. */
  function ManyLobby(): Game {
    Game(0, ManyOptions, Contracts.Created, 0, 0, Everyone, LeaderBoard(ScoreRows([0, 0, 0, 0, 0])), None, [], 0)
  }

  /** It is `asker`'s turn to ask, with `scores` on the board, and the
      asking window closes one second after `t`. */
  function ManyTurn(asker: nat, scores: seq<int>, t: int): Game {
    Game(0, ManyOptions, Contracts.Active, asker, t + 1, Everyone, LeaderBoard(ScoreRows(scores)), None, [], 0)
  }

  // ------------------------------------------------------ generic steps

  /** The guesses submitted one after the other at `now`. */
  function SubmitEach(g: Game, guesses: seq<Answer>, now: int): Result<Game>
    decreases |guesses|
  {
    if |guesses| == 0 then Success(g)
    else
      var step :- Submit(g, guesses[0], now);
      SubmitEach(step.0, guesses[1..], now)
  }

  /** The guesses as the service records them, stamped with `now`. */
  function Stamp(guesses: seq<Answer>, now: int): (r: seq<Answer>)
    ensures |r| == |guesses|
    ensures forall i :: 0 <= i < |r| ==> r[i] == guesses[i].(submitTime := now)
  {
    if |guesses| == 0 then [] else [guesses[0].(submitTime := now)] + Stamp(guesses[1..], now)
  }

  /** While a question is open, guesses by participants other than the
      asker, all in time, are recorded in submission order. */
  lemma {:induction false} SubmitEachRecords(g: Game, guesses: seq<Answer>, now: int)
    requires g.state == Contracts.Active && g.activeQuestion.Some? && now <= g.activeUntil
    requires forall i :: 0 <= i < |guesses| ==>
               guesses[i].playerId in g.players && guesses[i].playerId != g.activePlayer
    ensures SubmitEach(g, guesses, now) == Success(g.(answers := g.answers + Stamp(guesses, now)))
    decreases |guesses|
  {
    if |guesses| > 0 {
      var g1 := g.(answers := g.answers + [guesses[0].(submitTime := now)]);
      SubmitFirst(g, guesses, now);
      SubmitEachRecords(g1, guesses[1..], now);
      assert Stamp(guesses, now) == [guesses[0].(submitTime := now)] + Stamp(guesses[1..], now);
      assert g1.answers + Stamp(guesses[1..], now) == g.answers + Stamp(guesses, now);
    } else {
      assert g.answers + Stamp(guesses, now) == g.answers;
    }
  }

  /** The first guess is recorded and the rest follow it. */
  lemma SubmitFirst(g: Game, guesses: seq<Answer>, now: int)
    requires g.state == Contracts.Active && g.activeQuestion.Some? && now <= g.activeUntil
    requires |guesses| > 0 && guesses[0].playerId in g.players && guesses[0].playerId != g.activePlayer
    ensures SubmitEach(g, guesses, now)
         == SubmitEach(g.(answers := g.answers + [guesses[0].(submitTime := now)]), guesses[1..], now)
  {
    assert Submit(g, guesses[0], now).Success?;
  }

  /** Four answers listed in submission order are ranked by inserting each
      into the ranking of those after it. */
  lemma OrderOfFour(s: seq<Answer>, correct: int)
    requires |s| == 4
    ensures OrderByCloseness(s, correct)
         == Insert(s[0], Insert(s[1], Insert(s[2], [s[3]], correct), correct), correct)
  {
    assert s[1..][1..][1..] == [s[3]];
    assert OrderByCloseness([s[3]], correct) == [s[3]];
    assert OrderByCloseness(s[1..][1..], correct) == Insert(s[2], [s[3]], correct);
    assert OrderByCloseness(s[1..], correct) == Insert(s[1], Insert(s[2], [s[3]], correct), correct);
  }

  /** Four answers submitted at `t` and scored against a deadline of
      `t + 1` score 5, 4, 3 and 2 in ranking order. */
  lemma ScoredInOneSecond(answers: seq<Answer>, correct: int, t: int)
    requires |answers| == 4 && forall i :: 0 <= i < 4 ==> answers[i].submitTime == t
    ensures var ranked := OrderByCloseness(answers, correct);
            && |ranked| == 4
            && ScoreAnswers(answers, correct, t + 1)
                 == [ranked[0].(score := 5), ranked[1].(score := 4), ranked[2].(score := 3), ranked[3].(score := 2)]
  {
    var ranked := OrderByCloseness(answers, correct);
    var r := ScoreAnswers(answers, correct, t + 1);
    OrderByClosenessIsStableSort(answers, correct);
    forall i | 0 <= i < 4 ensures ranked[i].submitTime == t {
      assert ranked[i] in multiset(answers);
    }
    assert r[0] == ranked[0].(score := 5) && r[1] == ranked[1].(score := 4);
    assert r[2] == ranked[2].(score := 3) && r[3] == ranked[3].(score := 2);
  }

  /** The board update after a question: each player other than the asker
      gains the score of their first answer in `scored`. */
  lemma BoardAfterQuestion(before: seq<int>, scored: seq<Answer>, asker: nat, after: seq<int>)
    requires |before| == 5 && |after| == 5 && asker < 5
    requires after[asker] == before[asker]
    requires forall p :: 0 <= p < 5 && p != asker ==>
               FirstBy(scored, p).Some? && after[p] == before[p] + scored[FirstBy(scored, p).value].score
    ensures UpdateRows(ScoreRows(before), scored, asker) == Success(ScoreRows(after))
  {
    var rows := ScoreRows(before);
    forall i | 0 <= i < |rows| && rows[i].playerId != asker ensures Answered(scored, rows[i].playerId) {
      assert rows[i].playerId == i;
      var k := FirstBy(scored, i).value;
      assert scored[k].playerId == i;
    }
    var r := UpdateRows(rows, scored, asker);
    assert r.Success?;
    assert |r.value| == 5;
    forall p | 0 <= p < 5 ensures r.value[p] == ScoreRows(after)[p] {
      assert rows[p].playerId == p;
    }
    assert r.value == ScoreRows(after);
  }

  /** One turn of the game: the asker asks `q` at `t`, the four others
      submit `guesses` in that second, and the engine evaluates at `t + 1`. */
  function PlayTurn(g: Game, q: Question, guesses: seq<Answer>, t: int): Result<Game> {
    var asked :- Ask(g, q, t);
    var answered :- SubmitEach(asked, guesses, t);
    Evaluate(answered, t + 1)
  }

  /** The game once `q` is open and `guesses` are recorded at `t`. */
  function ManyAnswered(asker: nat, scores: seq<int>, q: Question, guesses: seq<Answer>, t: int): Game {
    ManyTurn(asker, scores, t).(activeQuestion := Some(q), answers := Stamp(guesses, t))
  }

  /** The asker's question opens the answer window and the others' guesses
      are recorded in submission order. */
  lemma AskAndAnswer(asker: nat, scores: seq<int>, q: Question, guesses: seq<Answer>, t: int)
    requires asker < 5 && |scores| == 5 && q.playerId == asker
    requires forall i :: 0 <= i < |guesses| ==> 0 <= guesses[i].playerId < 5 && guesses[i].playerId != asker
    ensures PlayTurn(ManyTurn(asker, scores, t), q, guesses, t)
         == Evaluate(ManyAnswered(asker, scores, q, guesses, t), t + 1)
  {
    var g := ManyTurn(asker, scores, t);
    var asked := g.(activeQuestion := Some(q));
    assert Ask(g, q, t) == Success(asked);
    forall i | 0 <= i < |guesses| ensures guesses[i].playerId in asked.players {
      assert Everyone[guesses[i].playerId] == guesses[i].playerId;
    }
    SubmitEachRecords(asked, guesses, t);
    assert asked.answers + Stamp(guesses, t) == Stamp(guesses, t);
  }

  /** Scoring the recorded guesses moves the board from `before` to
      `after` when the scored answers do. */
  lemma CloseTurn(asker: nat, before: seq<int>, q: Question, guesses: seq<Answer>, t: int,
                  scored: seq<Answer>, after: seq<int>)
    requires asker < 5 && |before| == 5 && |after| == 5
    requires ScoreAnswers(Stamp(guesses, t), q.answer, t + 1) == scored
    requires UpdateRows(ScoreRows(before), scored, asker) == Success(ScoreRows(after))
    ensures CloseQuestion(ManyAnswered(asker, before, q, guesses, t)) == Success(ManyTurn(asker, after, t))
  {
  }

  // ------------------------------------------------------ the five questions

  /** The guesses in submission order; the client sends no time. */
  function Guess(playerId: int, value: int): Answer {
    Answer(0, playerId, value, 0, 0)
  }

  const PucciniQuestion := Question(0, "How many operas did Puccini write?", 4, 0)
  const IqQuestion := Question(0, "How many points is my IQ higher than Frasier's?", 27, 1)
  const ArmyQuestion := Question(0, "At what age did I join the army?", 19, 2)
  const BrothersQuestion := Question(0, "How many brothers do I have?", 8, 3)
  const AppearancesQuestion := Question(0, "How many episodes have I appeared in?", 9, 4)

  const PucciniGuesses := [Guess(1, 4), Guess(2, 0), Guess(3, 3), Guess(4, 5)]
  const IqGuesses := [Guess(0, 0), Guess(2, 27), Guess(3, 30), Guess(4, 10)]
  const ArmyGuesses := [Guess(0, 18), Guess(1, 20), Guess(3, 19), Guess(4, 14)]
  const BrothersGuesses := [Guess(0, 7), Guess(1, 8), Guess(2, 10), Guess(4, 6)]
  const AppearancesGuesses := [Guess(0, 9), Guess(1, 8), Guess(2, 10), Guess(3, 6)]

  /** Four guesses recorded at `t`. */
  lemma StampFour(guesses: seq<Answer>, t: int)
    requires |guesses| == 4
    ensures Stamp(guesses, t) == [guesses[0].(submitTime := t), guesses[1].(submitTime := t),
                                  guesses[2].(submitTime := t), guesses[3].(submitTime := t)]
  {
  }

  /** A due game whose question closes to `closed` hands the turn on from
      there. */
  lemma EvaluateClosed(g: Game, closed: Game, now: int)
    requires Due(g, now) && CloseQuestion(g) == Success(closed)
    ensures Evaluate(g, now) == AdvanceTurn(closed, now)
  {
  }

  /** The evaluation one second after the guesses. */
  lemma EvaluateTurn(asker: nat, before: seq<int>, q: Question, guesses: seq<Answer>, t: int, after: seq<int>)
    requires asker < 5 && |before| == 5 && |after| == 5
    requires UpdateRows(ScoreRows(before), ScoreAnswers(Stamp(guesses, t), q.answer, t + 1), asker)
          == Success(ScoreRows(after))
    ensures Evaluate(ManyAnswered(asker, before, q, guesses, t), t + 1) == AdvanceTurn(ManyTurn(asker, after, t), t + 1)
  {
    CloseTurn(asker, before, q, guesses, t, ScoreAnswers(Stamp(guesses, t), q.answer, t + 1), after);
    EvaluateClosed(ManyAnswered(asker, before, q, guesses, t), ManyTurn(asker, after, t), t + 1);
  }

  /** In `asker`'s turn the others guess, and scoring their guesses moves
      the board from `before` to `after`. */
  predicate ScoredTurn(asker: nat, before: seq<int>, q: Question, guesses: seq<Answer>, t: int, after: seq<int>) {
    && asker < 5 && |before| == 5 && |after| == 5 && q.playerId == asker
    && (forall i :: 0 <= i < |guesses| ==> 0 <= guesses[i].playerId < 5 && guesses[i].playerId != asker)
    && UpdateRows(ScoreRows(before), ScoreAnswers(Stamp(guesses, t), q.answer, t + 1), asker) == Success(ScoreRows(after))
  }

  /** A turn whose scored guesses move the board from `before` to `after`
      ends with the board at `after` and the turn handed on. */
  lemma TurnFromBoard(asker: nat, before: seq<int>, q: Question, guesses: seq<Answer>, t: int, after: seq<int>)
    requires ScoredTurn(asker, before, q, guesses, t, after)
    ensures PlayTurn(ManyTurn(asker, before, t), q, guesses, t) == AdvanceTurn(ManyTurn(asker, after, t), t + 1)
  {
    AskAndAnswer(asker, before, q, guesses, t);
    EvaluateTurn(asker, before, q, guesses, t, after);
  }

  /** Four answers submitted at `t` and ranked as `ranked` move the board
      from `before` to `after`: the player ranked k-th (from 0) gains
      5 - k, and `rank` says where each player other than the asker is
      ranked. */
  lemma BoardFromRanking(before: seq<int>, answers: seq<Answer>, correct: int, t: int, asker: nat,
                         ranked: seq<Answer>, rank: seq<nat>, after: seq<int>)
    requires |before| == 5 && |after| == 5 && |rank| == 5 && asker < 5
    requires |answers| == 4 && forall i :: 0 <= i < 4 ==> answers[i].submitTime == t
    requires OrderByCloseness(answers, correct) == ranked && |ranked| == 4
    requires forall i, j :: 0 <= i < j < 4 ==> ranked[i].playerId != ranked[j].playerId
    requires after[asker] == before[asker]
    requires forall p :: 0 <= p < 5 && p != asker ==>
               rank[p] < 4 && ranked[rank[p]].playerId == p && after[p] == before[p] + 5 - rank[p]
    ensures UpdateRows(ScoreRows(before), ScoreAnswers(answers, correct, t + 1), asker) == Success(ScoreRows(after))
  {
    ScoredInOneSecond(answers, correct, t);
    var scored := [ranked[0].(score := 5), ranked[1].(score := 4), ranked[2].(score := 3), ranked[3].(score := 2)];
    ScoredBoard(scored);
    forall p | 0 <= p < 5 && p != asker
      ensures FirstBy(scored, p).Some? && after[p] == before[p] + scored[FirstBy(scored, p).value].score
    {
      assert scored[rank[p]].playerId == p;
    }
    BoardAfterQuestion(before, scored, asker, after);
  }

  /** Frasier asks about Puccini (4): Niles is exact, Daphne (3) and Fred
      (5) are equally close and keep their submission order, Martin (0) is
      last. */
  lemma PucciniRanking(t: int)
    ensures |Stamp(PucciniGuesses, t)| == 4
    ensures OrderByCloseness(Stamp(PucciniGuesses, t), PucciniQuestion.answer)
         == [Stamp(PucciniGuesses, t)[0], Stamp(PucciniGuesses, t)[2], Stamp(PucciniGuesses, t)[3], Stamp(PucciniGuesses, t)[1]]
  {
    var s := Stamp(PucciniGuesses, t);
    OrderOfFour(s, 4);
    assert Insert(s[2], [s[3]], 4) == [s[2], s[3]];
    assert Insert(s[1], [s[3]], 4) == [s[3], s[1]];
    assert Insert(s[1], [s[2], s[3]], 4) == [s[2], s[3], s[1]] by { assert [s[2], s[3]][1..] == [s[3]]; }
    assert Insert(s[0], [s[2], s[3], s[1]], 4) == [s[0], s[2], s[3], s[1]];
  }

  lemma PucciniBoardStep(t: int)
    ensures ScoredTurn(0, [0, 0, 0, 0, 0], PucciniQuestion, PucciniGuesses, t, [0, 5, 2, 4, 3])
  {
    var s := Stamp(PucciniGuesses, t);
    StampFour(PucciniGuesses, t);
    PucciniRanking(t);
    FourGuessers(PucciniGuesses, 0);
    BoardFromRanking([0, 0, 0, 0, 0], s, PucciniQuestion.answer, t, 0, [s[0], s[2], s[3], s[1]], [0, 0, 3, 1, 2], [0, 5, 2, 4, 3]);
  }

  /** Niles asks about his IQ (27): Martin (27), Daphne (30), Fred (10),
      Frasier (0). */
  lemma IqRanking(t: int)
    ensures |Stamp(IqGuesses, t)| == 4
    ensures OrderByCloseness(Stamp(IqGuesses, t), IqQuestion.answer)
         == [Stamp(IqGuesses, t)[1], Stamp(IqGuesses, t)[2], Stamp(IqGuesses, t)[3], Stamp(IqGuesses, t)[0]]
  {
    var s := Stamp(IqGuesses, t);
    OrderOfFour(s, 27);
    assert Insert(s[2], [s[3]], 27) == [s[2], s[3]];
    assert Insert(s[1], [s[2], s[3]], 27) == [s[1], s[2], s[3]];
    assert Insert(s[0], [s[3]], 27) == [s[3], s[0]];
    assert Insert(s[0], [s[2], s[3]], 27) == [s[2], s[3], s[0]] by { assert [s[2], s[3]][1..] == [s[3]]; }
    assert Insert(s[0], [s[1], s[2], s[3]], 27) == [s[1], s[2], s[3], s[0]] by { assert [s[1], s[2], s[3]][1..] == [s[2], s[3]]; }
  }

  lemma IqBoardStep(t: int)
    ensures ScoredTurn(1, [0, 5, 2, 4, 3], IqQuestion, IqGuesses, t, [2, 5, 7, 8, 6])
  {
    var s := Stamp(IqGuesses, t);
    StampFour(IqGuesses, t);
    IqRanking(t);
    FourGuessers(IqGuesses, 1);
    BoardFromRanking([0, 5, 2, 4, 3], s, IqQuestion.answer, t, 1, [s[1], s[2], s[3], s[0]], [3, 0, 0, 1, 2], [2, 5, 7, 8, 6]);
  }

  /** Martin asks when he joined the army (19): Daphne is exact, Frasier
      (18) and Niles (20) are equally close and keep their submission
      order, Fred (14) is last. */
  lemma ArmyRanking(t: int)
    ensures |Stamp(ArmyGuesses, t)| == 4
    ensures OrderByCloseness(Stamp(ArmyGuesses, t), ArmyQuestion.answer)
         == [Stamp(ArmyGuesses, t)[2], Stamp(ArmyGuesses, t)[0], Stamp(ArmyGuesses, t)[1], Stamp(ArmyGuesses, t)[3]]
  {
    var s := Stamp(ArmyGuesses, t);
    OrderOfFour(s, 19);
    assert Insert(s[2], [s[3]], 19) == [s[2], s[3]];
    assert Insert(s[1], [s[3]], 19) == [s[1], s[3]];
    assert Insert(s[1], [s[2], s[3]], 19) == [s[2], s[1], s[3]] by { assert [s[2], s[3]][1..] == [s[3]]; }
    assert Insert(s[0], [s[1], s[3]], 19) == [s[0], s[1], s[3]];
    assert Insert(s[0], [s[2], s[1], s[3]], 19) == [s[2], s[0], s[1], s[3]] by { assert [s[2], s[1], s[3]][1..] == [s[1], s[3]]; }
  }

  lemma ArmyBoardStep(t: int)
    ensures ScoredTurn(2, [2, 5, 7, 8, 6], ArmyQuestion, ArmyGuesses, t, [6, 8, 7, 13, 8])
  {
    var s := Stamp(ArmyGuesses, t);
    StampFour(ArmyGuesses, t);
    ArmyRanking(t);
    FourGuessers(ArmyGuesses, 2);
    BoardFromRanking([2, 5, 7, 8, 6], s, ArmyQuestion.answer, t, 2, [s[2], s[0], s[1], s[3]], [1, 2, 0, 0, 3], [6, 8, 7, 13, 8]);
  }

  /** Daphne asks how many brothers she has (8): Niles is exact, then
      Frasier (7), and Martin (10) before the equally close Fred (6). */
  lemma BrothersRanking(t: int)
    ensures |Stamp(BrothersGuesses, t)| == 4
    ensures OrderByCloseness(Stamp(BrothersGuesses, t), BrothersQuestion.answer)
         == [Stamp(BrothersGuesses, t)[1], Stamp(BrothersGuesses, t)[0], Stamp(BrothersGuesses, t)[2], Stamp(BrothersGuesses, t)[3]]
  {
    var s := Stamp(BrothersGuesses, t);
    OrderOfFour(s, 8);
    assert Insert(s[2], [s[3]], 8) == [s[2], s[3]];
    assert Insert(s[1], [s[2], s[3]], 8) == [s[1], s[2], s[3]];
    assert Insert(s[0], [s[2], s[3]], 8) == [s[0], s[2], s[3]];
    assert Insert(s[0], [s[1], s[2], s[3]], 8) == [s[1], s[0], s[2], s[3]] by { assert [s[1], s[2], s[3]][1..] == [s[2], s[3]]; }
  }

  lemma BrothersBoardStep(t: int)
    ensures ScoredTurn(3, [6, 8, 7, 13, 8], BrothersQuestion, BrothersGuesses, t, [10, 13, 10, 13, 10])
  {
    var s := Stamp(BrothersGuesses, t);
    StampFour(BrothersGuesses, t);
    BrothersRanking(t);
    FourGuessers(BrothersGuesses, 3);
    BoardFromRanking([6, 8, 7, 13, 8], s, BrothersQuestion.answer, t, 3, [s[1], s[0], s[2], s[3]], [1, 0, 2, 0, 3], [10, 13, 10, 13, 10]);
  }

  /** Fred asks how many episodes he appeared in (9): Frasier is exact,
      Niles (8) before the equally close Martin (10), Daphne (6) last. */
  lemma AppearancesRanking(t: int)
    ensures |Stamp(AppearancesGuesses, t)| == 4
    ensures OrderByCloseness(Stamp(AppearancesGuesses, t), AppearancesQuestion.answer)
         == [Stamp(AppearancesGuesses, t)[0], Stamp(AppearancesGuesses, t)[1], Stamp(AppearancesGuesses, t)[2], Stamp(AppearancesGuesses, t)[3]]
  {
    var s := Stamp(AppearancesGuesses, t);
    OrderOfFour(s, 9);
    assert Insert(s[2], [s[3]], 9) == [s[2], s[3]];
    assert Insert(s[1], [s[2], s[3]], 9) == [s[1], s[2], s[3]];
    assert Insert(s[0], [s[1], s[2], s[3]], 9) == [s[0], s[1], s[2], s[3]];
  }

  lemma AppearancesBoardStep(t: int)
    ensures ScoredTurn(4, [10, 13, 10, 13, 10], AppearancesQuestion, AppearancesGuesses, t, [15, 17, 13, 15, 10])
  {
    var s := Stamp(AppearancesGuesses, t);
    StampFour(AppearancesGuesses, t);
    AppearancesRanking(t);
    FourGuessers(AppearancesGuesses, 4);
    BoardFromRanking([10, 13, 10, 13, 10], s, AppearancesQuestion.answer, t, 4, [s[0], s[1], s[2], s[3]], [0, 1, 2, 3, 0], [15, 17, 13, 15, 10]);
  }

  /** Four guesses by participants other than the asker. */
  lemma FourGuessers(guesses: seq<Answer>, asker: nat)
    requires |guesses| == 4
    requires 0 <= guesses[0].playerId < 5 && guesses[0].playerId != asker
    requires 0 <= guesses[1].playerId < 5 && guesses[1].playerId != asker
    requires 0 <= guesses[2].playerId < 5 && guesses[2].playerId != asker
    requires 0 <= guesses[3].playerId < 5 && guesses[3].playerId != asker
    ensures forall i :: 0 <= i < |guesses| ==> 0 <= guesses[i].playerId < 5 && guesses[i].playerId != asker
  {
  }

  /** In a list of four scored answers by different players, each
      player's first answer is their only one. */
  lemma ScoredBoard(scored: seq<Answer>)
    requires |scored| == 4
    requires forall i, j :: 0 <= i < j < 4 ==> scored[i].playerId != scored[j].playerId
    ensures forall k :: 0 <= k < 4 ==> FirstBy(scored, scored[k].playerId) == Some(k)
  {
    forall k | 0 <= k < 4 ensures FirstBy(scored, scored[k].playerId) == Some(k) {
      var r := FirstBy(scored, scored[k].playerId);
      assert r.Some?;
    }
  }

  /** After the turn of `asker` (not the last participant) the next
      participant asks, in the same round. */
  lemma HandOn(asker: nat, next: nat, scores: seq<int>, t: int)
    requires asker < 4 && next == asker + 1 && |scores| == 5
    ensures AdvanceTurn(ManyTurn(asker, scores, t), t + 1) == Success(ManyTurn(next, scores, t + 1))
  {
  }

  /** A turn whose scored guesses move the board from `before` to `after`,
      asked by any participant but the last, ends with the next
      participant to ask. */
  lemma NextTurn(asker: nat, next: nat, before: seq<int>, q: Question, guesses: seq<Answer>, t: int, after: seq<int>)
    requires asker < 4 && next == asker + 1 && ScoredTurn(asker, before, q, guesses, t, after)
    ensures PlayTurn(ManyTurn(asker, before, t), q, guesses, t) == Success(ManyTurn(next, after, t + 1))
  {
    TurnFromBoard(asker, before, q, guesses, t, after);
    HandOn(asker, next, after, t);
  }

  /** The turn of the last participant returns the turn to the first,
      which ends the only round. */
  lemma LastTurn(before: seq<int>, q: Question, guesses: seq<Answer>, t: int, after: seq<int>)
    requires ScoredTurn(4, before, q, guesses, t, after)
    ensures PlayTurn(ManyTurn(4, before, t), q, guesses, t)
         == Success(ManyTurn(0, after, t + 1).(state := Contracts.Completed, currentRound := 1))
  {
    TurnFromBoard(4, before, q, guesses, t, after);
    HandBack(after, t);
  }

  /** After the last participant's turn the first participant asks again,
      and the only round is over. */
  lemma HandBack(scores: seq<int>, t: int)
    requires |scores| == 5
    ensures AdvanceTurn(ManyTurn(4, scores, t), t + 1)
         == Success(ManyTurn(0, scores, t + 1).(state := Contracts.Completed, currentRound := 1))
  {
    assert (4 + 1) % |Everyone| == 0;
  }

  lemma PucciniTurn(t: int)
    ensures PlayTurn(ManyTurn(0, [0, 0, 0, 0, 0], t), PucciniQuestion, PucciniGuesses, t)
         == Success(ManyTurn(1, [0, 5, 2, 4, 3], t + 1))
  {
    PucciniBoardStep(t);
    NextTurn(0, 1, [0, 0, 0, 0, 0], PucciniQuestion, PucciniGuesses, t, [0, 5, 2, 4, 3]);
  }

  lemma IqTurn(t: int)
    ensures PlayTurn(ManyTurn(1, [0, 5, 2, 4, 3], t), IqQuestion, IqGuesses, t)
         == Success(ManyTurn(2, [2, 5, 7, 8, 6], t + 1))
  {
    IqBoardStep(t);
    NextTurn(1, 2, [0, 5, 2, 4, 3], IqQuestion, IqGuesses, t, [2, 5, 7, 8, 6]);
  }

  lemma ArmyTurn(t: int)
    ensures PlayTurn(ManyTurn(2, [2, 5, 7, 8, 6], t), ArmyQuestion, ArmyGuesses, t)
         == Success(ManyTurn(3, [6, 8, 7, 13, 8], t + 1))
  {
    ArmyBoardStep(t);
    NextTurn(2, 3, [2, 5, 7, 8, 6], ArmyQuestion, ArmyGuesses, t, [6, 8, 7, 13, 8]);
  }

  lemma BrothersTurn(t: int)
    ensures PlayTurn(ManyTurn(3, [6, 8, 7, 13, 8], t), BrothersQuestion, BrothersGuesses, t)
         == Success(ManyTurn(4, [10, 13, 10, 13, 10], t + 1))
  {
    BrothersBoardStep(t);
    NextTurn(3, 4, [6, 8, 7, 13, 8], BrothersQuestion, BrothersGuesses, t, [10, 13, 10, 13, 10]);
  }

  lemma AppearancesTurn(t: int)
    ensures PlayTurn(ManyTurn(4, [10, 13, 10, 13, 10], t), AppearancesQuestion, AppearancesGuesses, t)
         == Success(ManyTurn(0, [15, 17, 13, 15, 10], t + 1).(state := Contracts.Completed, currentRound := 1))
  {
    AppearancesBoardStep(t);
    LastTurn([10, 13, 10, 13, 10], AppearancesQuestion, AppearancesGuesses, t, [15, 17, 13, 15, 10]);
  }

  /** The whole test: Frasier starts the game at `t`, everyone asks once in
      join order, one question per second, and the game ends completed
      with Frasier 15, Niles 17, Martin 13, Daphne 15 and Fred 10. */
  lemma FivePlayerGame(t: int)
    ensures JoinOrStart(ManyLobby(), 0, t) == Success(ManyTurn(0, [0, 0, 0, 0, 0], t))
    ensures PlayTurn(ManyTurn(0, [0, 0, 0, 0, 0], t), PucciniQuestion, PucciniGuesses, t)
         == Success(ManyTurn(1, [0, 5, 2, 4, 3], t + 1))
    ensures PlayTurn(ManyTurn(1, [0, 5, 2, 4, 3], t + 1), IqQuestion, IqGuesses, t + 1)
         == Success(ManyTurn(2, [2, 5, 7, 8, 6], t + 2))
    ensures PlayTurn(ManyTurn(2, [2, 5, 7, 8, 6], t + 2), ArmyQuestion, ArmyGuesses, t + 2)
         == Success(ManyTurn(3, [6, 8, 7, 13, 8], t + 3))
    ensures PlayTurn(ManyTurn(3, [6, 8, 7, 13, 8], t + 3), BrothersQuestion, BrothersGuesses, t + 3)
         == Success(ManyTurn(4, [10, 13, 10, 13, 10], t + 4))
    ensures var last := PlayTurn(ManyTurn(4, [10, 13, 10, 13, 10], t + 4), AppearancesQuestion, AppearancesGuesses, t + 4);
            && last.Success?
            && last.value.state == Contracts.Completed
            && last.value.board.rows == ScoreRows([15, 17, 13, 15, 10])
  {
    PucciniTurn(t);
    IqTurn(t + 1);
    ArmyTurn(t + 2);
    BrothersTurn(t + 3);
    AppearancesTurn(t + 4);
  }
}
