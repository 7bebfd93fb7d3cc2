/** The quiz session of the `Questionnaire` component: the state it keeps,
    the handlers that move it (start, select, submit, timer tick, logout) and
    the save and restore of that state under a per-player storage key. The
    dialogs that follow an answer or the end of time are taken as
    acknowledged at once, so each handler runs to completion. */
module Quiz {
  import opened Wrappers
  import opened Shuffle
  import opened Timing
  import Server

  /** At most this many questions are drawn from the bank. */
  const QuestionsPerQuiz := 10

  /** The storage key of the signed-in player's record. */
  const PlayerKey := "fintrex_player"

  /** The storage key of one player's quiz session. The NIC can be read back
      from it, so two players never share a key, and no session key is the
      player record's key. */
  function StorageKey(nic: string): (key: string)
    ensures |key| == 13 + |nic| && key[13..] == nic
    ensures key != PlayerKey
  {
    var key := "fintrex_quiz_" + nic;
    assert key[8] == 'q' && key[13..] == nic;
    key
  }

  /** A question of the bank: its text, its options, and the correct option. */
  datatype Question = Question(question: string, options: seq<string>, answer: string)

  /** One entry of `answersGiven`. */
  datatype Answer = Answer(question: string, selected: string, correct: string)

  function Min(a: int, b: int): int {
    if a < b then a else b
  }

  /** The number of answers whose selected option was the correct one. */
  function CountCorrect(answers: seq<Answer>): (n: nat)
    ensures n <= |answers|
  {
    if answers == [] then 0
    else (if answers[0].selected == answers[0].correct then 1 else 0) + CountCorrect(answers[1..])
  }

  lemma {:induction false} CountCorrectAppend(answers: seq<Answer>, a: Answer)
    ensures CountCorrect(answers + [a]) == CountCorrect(answers) + (if a.selected == a.correct then 1 else 0)
  {
    if answers == [] {
      assert [a][1..] == [];
    } else {
      assert (answers + [a])[1..] == answers[1..] + [a];
      CountCorrectAppend(answers[1..], a);
    }
  }

  /** The end screen's winner rule: a score of 7 or more. A full score,
      the only one the result handler records as WON, is always a win here. */
  function IsWinner(score: int): (won: bool)
    ensures won <==> score >= 7
    ensures Server.RecordedStatus(score) == Server.Won ==> won
  {
    score >= 7
  }

  /** The end screen and the result handler disagree: a score of 7, 8 or 9
      is shown as a win but recorded as LOST. Every recorded win is shown as
      a win. */
  lemma WinnerRulesDisagree(score: int)
    ensures 7 <= score <= 9 ==> IsWinner(score) && Server.RecordedStatus(score) == Server.Lost
    ensures Server.RecordedStatus(score) == Server.Won ==> IsWinner(score)
    ensures IsWinner(score) <==> score >= 7
  {
  }

  /** The state the component keeps, as the record it saves. */
  datatype SavedState = SavedState(
    questions: seq<Question>,
    currentIndex: int,
    score: int,
    showStart: bool,
    quizEnded: bool,
    quizStartTimestamp: Option<int>,
    timeLeft: int,
    answersGiven: seq<Answer>,
    selectedOption: Option<string>)

  /** A stored value: a saved session, or any other text (the player record,
      or text that does not parse as a session). */
  datatype Item = SessionItem(state: SavedState) | RawItem(text: string)

  /** A timestamp JavaScript treats as true: present and not 0. */
  predicate Truthy(ts: Option<int>) {
    ts.Some? && ts.value != 0
  }

  /** The three screens, in the order the component tests for them. */
  datatype Phase = Start | InProgress | Ended

  function PhaseOf(s: SavedState): Phase {
    if s.quizEnded then Ended else if s.showStart then Start else InProgress
  }

  /** The session invariant: the score counts the correct answers; before
      the start nothing has been drawn; while in progress there is one
      answer per question passed, the current question exists (unless the
      bank was empty), the clock has started and time is left; at the end
      at most one answer more than the current index has been given. */
  ghost predicate Consistent(s: SavedState) {
    && s.score == CountCorrect(s.answersGiven)
    && 0 <= s.currentIndex
    && (PhaseOf(s) == Start ==> s.questions == [] && s.answersGiven == [] && s.currentIndex == 0)
    && (PhaseOf(s) == InProgress ==>
          && |s.answersGiven| == s.currentIndex
          && (s.currentIndex < |s.questions| || (s.questions == [] && s.currentIndex == 0))
          && s.quizStartTimestamp.Some? && s.timeLeft > 0)
    && (PhaseOf(s) == Ended ==>
          s.currentIndex <= |s.answersGiven| <= s.currentIndex + 1 && |s.answersGiven| <= |s.questions|)
  }

  /** A saved record the restore effect resumes. */
  predicate Resumable(s: SavedState) {
    !s.quizEnded && |s.questions| > 0
  }

  /** The state the restore effect sets from a resumable record, with its
      `||` defaults: a falsy timestamp becomes `now`, a `timeLeft` of 0
      becomes the full duration, and an empty selected option becomes
      `null`. The defaults of `currentIndex`, `score` and `answersGiven` give
      back the saved value for every number and every list. */
  function Revived(s: SavedState, now: int): (r: SavedState)
    ensures r.questions == s.questions && r.currentIndex == s.currentIndex
    ensures r.score == s.score && r.answersGiven == s.answersGiven
    ensures PhaseOf(r) == InProgress
    ensures now != 0 ==> Truthy(r.quizStartTimestamp)
    ensures Truthy(s.quizStartTimestamp) ==> r.quizStartTimestamp == s.quizStartTimestamp
    ensures r.timeLeft != 0 && (s.timeLeft != 0 ==> r.timeLeft == s.timeLeft)
    ensures r.selectedOption != Some("") && (s.selectedOption != Some("") ==> r.selectedOption == s.selectedOption)
    ensures !Truthy(s.quizStartTimestamp) ==> r.quizStartTimestamp == Some(now)
    ensures s.timeLeft == 0 ==> r.timeLeft == QuizDurationSeconds
    ensures s.selectedOption == Some("") ==> r.selectedOption == None
  {
    s.(showStart := false,
       quizEnded := false,
       quizStartTimestamp := if Truthy(s.quizStartTimestamp) then s.quizStartTimestamp else Some(now),
       timeLeft := if s.timeLeft != 0 then s.timeLeft else QuizDurationSeconds,
       selectedOption := if s.selectedOption == Some("") then None else s.selectedOption)
  }

  /** A record saved in progress is resumed exactly as it was saved, unless
      one of the `||` defaults applies. */
  lemma RevivedIsSaved(s: SavedState, now: int)
    requires Resumable(s) && !s.showStart && now != 0
    ensures Revived(s, now) == s
        <==> Truthy(s.quizStartTimestamp) && s.timeLeft != 0 && s.selectedOption != Some("")
  {
    if Revived(s, now) == s {
      assert Revived(s, now).quizStartTimestamp == s.quizStartTimestamp;
      assert Revived(s, now).timeLeft == s.timeLeft;
      assert Revived(s, now).selectedOption == s.selectedOption;
    }
  }

  /** A session that was resumed once, saved again and resumed at another
      time comes back as it was: after one resume no `||` default applies. */
  lemma RevivedIdempotent(s: SavedState, now: int, later: int)
    requires now != 0
    ensures Revived(Revived(s, now), later) == Revived(s, now)
  {
  }

  /** Resuming a consistent record gives a consistent session. */
  lemma RevivedConsistent(s: SavedState, now: int)
    requires Consistent(s) && Resumable(s)
    ensures Consistent(Revived(s, now)) && PhaseOf(Revived(s, now)) == InProgress
  {
  }

  /** `localStorage`: string keys to stored values. */
  class LocalStorage {
    var items: map<string, Item>

    constructor (items: map<string, Item>)
      ensures this.items == items
    {
      this.items := items;
    }

    method SetItem(key: string, value: Item)
      modifies this
      ensures items == old(items)[key := value]
    {
      items := items[key := value];
    }

    method RemoveItem(key: string)
      modifies this
      ensures items == old(items) - {key}
    {
      items := items - {key};
    }
  }

  class Questionnaire {
    /** The signed-in player's NIC, which names the storage key. */
    const playerNic: string

    var questions: seq<Question>
    var currentIndex: int
    var score: int
    var showStart: bool
    var timeLeft: int
    var quizEnded: bool
    var quizStartTimestamp: Option<int>
    var selectedOption: Option<string>
    var answersGiven: seq<Answer>

    function Snapshot(): SavedState
      reads this
    {
      SavedState(questions, currentIndex, score, showStart, quizEnded, quizStartTimestamp,
                 timeLeft, answersGiven, selectedOption)
    }

    function Phase(): Phase
      reads this
    {
      PhaseOf(Snapshot())
    }

    ghost predicate Valid()
      reads this
    {
      Consistent(Snapshot())
    }

    /** The initial state: the start screen, nothing drawn, the full time. */
    constructor (nic: string)
      ensures playerNic == nic
      ensures Snapshot() == SavedState([], 0, 0, true, false, None, QuizDurationSeconds, [], None)
      ensures Valid() && Phase() == Start
    {
      playerNic := nic;
      questions, currentIndex, score := [], 0, 0;
      showStart, timeLeft, quizEnded := true, QuizDurationSeconds, false;
      quizStartTimestamp, selectedOption, answersGiven := None, None, [];
    }

    /** `startQuiz`: shuffles the bank, keeps the first ten questions (all of
      them when there are fewer), shuffles each one's options, and resets
      the session with the clock started at `now`. `picks` are the bank
      positions the questions came from. The draws for the bank shuffle are
      `bankDraws`, those for the options of the k-th question `optionDraws[k]`. */
    method StartQuiz(bank: seq<Question>, now: int, bankDraws: seq<nat>, optionDraws: seq<seq<nat>>)
      returns (ghost picks: seq<nat>)
      requires ValidDraws(bankDraws, |bank|)
      requires |optionDraws| >= Min(QuestionsPerQuiz, |bank|)
      requires forall k, b :: 0 <= k < |optionDraws| && 0 <= b < |bank| ==> ValidDraws(optionDraws[k], |bank[b].options|)
      modifies this
      ensures |questions| == |picks| == Min(QuestionsPerQuiz, |bank|)
      ensures forall k :: 0 <= k < |picks| ==> picks[k] < |bank|
      ensures forall k, l :: 0 <= k < l < |picks| ==> picks[k] != picks[l]
      ensures forall k :: 0 <= k < |picks| ==>
        && questions[k].question == bank[picks[k]].question
        && questions[k].answer == bank[picks[k]].answer
        && |questions[k].options| == |bank[picks[k]].options|
        && multiset(questions[k].options) == multiset(bank[picks[k]].options)
      ensures currentIndex == 0 && score == 0 && answersGiven == [] && selectedOption == None
      ensures timeLeft == QuizDurationSeconds && quizStartTimestamp == Some(now)
      ensures !quizEnded && !showStart
      ensures Valid() && Phase() == InProgress
    {
      var shuffled: seq<Question>;
      ghost var perm: seq<nat>;
      shuffled, perm := ShuffleArray(bank, bankDraws);
      var n := Min(QuestionsPerQuiz, |shuffled|);
      var selected := shuffled[..n];
      var prepared: seq<Question> := [];
      var k := 0;
      while k < n
        invariant 0 <= k <= n && |prepared| == k
        invariant forall l :: 0 <= l < k ==>
          && prepared[l].question == bank[perm[l]].question
          && prepared[l].answer == bank[perm[l]].answer
          && |prepared[l].options| == |bank[perm[l]].options|
          && multiset(prepared[l].options) == multiset(bank[perm[l]].options)
      {
        var q := selected[k];
        var options: seq<string>;
        ghost var optionPerm: seq<nat>;
        options, optionPerm := ShuffleArray(q.options, optionDraws[k]);
        prepared := prepared + [Question(q.question, options, q.answer)];
        k := k + 1;
      }
      questions := prepared;
      currentIndex := 0;
      score := 0;
      quizEnded := false;
      quizStartTimestamp := Some(now);
      timeLeft := QuizDurationSeconds;
      selectedOption := None;
      answersGiven := [];
      showStart := false;
      picks := perm[..n];
    }

    /** An option button: selects `option`. */
    method SelectOption(option: string)
      modifies this
      ensures Snapshot() == old(Snapshot()).(selectedOption := Some(option))
      ensures old(Valid()) ==> Valid()
    {
      selectedOption := Some(option);
    }

    /** `submitAnswer` followed by "Continue": nothing happens once the quiz
      has ended, with no option selected, or when there is no current
      question (reading it would throw). Otherwise one answer is appended,
      the score goes up by one exactly when the selection is correct, and
      the quiz ends after the last question or moves to the next one with
      the selection cleared. */
    method SubmitAnswer()
      modifies this
      ensures old(quizEnded) || old(selectedOption).None? || !(0 <= old(currentIndex) < |old(questions)|)
        ==> Snapshot() == old(Snapshot())
      ensures !old(quizEnded) && old(selectedOption).Some? && 0 <= old(currentIndex) < |old(questions)| ==>
        var q := old(questions)[old(currentIndex)];
        var selected := old(selectedOption).value;
        && answersGiven == old(answersGiven) + [Answer(q.question, selected, q.answer)]
        && score == old(score) + (if selected == q.answer then 1 else 0)
        && (if old(currentIndex) + 1 >= |old(questions)|
            then quizEnded && currentIndex == old(currentIndex) && selectedOption == old(selectedOption)
            else !quizEnded && currentIndex == old(currentIndex) + 1 && selectedOption == None)
        && questions == old(questions) && showStart == old(showStart)
        && quizStartTimestamp == old(quizStartTimestamp) && timeLeft == old(timeLeft)
      ensures old(Valid()) ==> Valid()
    {
      if quizEnded || selectedOption.None? {
        return;
      }
      if !(0 <= currentIndex < |questions|) {
        return;
      }
      var currentQ := questions[currentIndex];
      var isCorrect := selectedOption.value == currentQ.answer;
      CountCorrectAppend(answersGiven, Answer(currentQ.question, selectedOption.value, currentQ.answer));
      answersGiven := answersGiven + [Answer(currentQ.question, selectedOption.value, currentQ.answer)];
      if isCorrect {
        score := score + 1;
      }
      var nextIndex := currentIndex + 1;
      if nextIndex >= |questions| {
        quizEnded := true;
      } else {
        currentIndex := nextIndex;
        selectedOption := None;
      }
    }

    /** `updateTimer` at time `now`: it does nothing on the start screen,
      after the end, or before a start timestamp is set; otherwise it shows
      the time left, derived from the start timestamp, and ends the quiz
      with 0 shown once no time is left. */
    method Tick(now: int)
      modifies this
      ensures old(showStart) || old(quizEnded) || !Truthy(old(quizStartTimestamp))
        ==> Snapshot() == old(Snapshot())
      ensures !old(showStart) && !old(quizEnded) && Truthy(old(quizStartTimestamp)) ==>
        var remaining := Remaining(old(quizStartTimestamp).value, now);
        && (if remaining <= 0 then timeLeft == 0 && quizEnded else timeLeft == remaining && !quizEnded)
        && Snapshot() == old(Snapshot()).(timeLeft := timeLeft, quizEnded := quizEnded)
      ensures !old(showStart) && !old(quizEnded) && Truthy(old(quizStartTimestamp))
              && now >= old(quizStartTimestamp).value
        ==> 0 <= timeLeft <= QuizDurationSeconds
      ensures old(Valid()) ==> Valid()
    {
      if showStart || quizEnded {
        return;
      }
      if !Truthy(quizStartTimestamp) {
        return;
      }
      var remaining := Remaining(quizStartTimestamp.value, now);
      if remaining <= 0 {
        timeLeft := 0;
        quizEnded := true;
      } else {
        timeLeft := remaining;
      }
    }

    /** `handleLogout`: forgets the saved session and the player record. */
    method HandleLogout(storage: LocalStorage)
      modifies storage
      ensures storage.items == old(storage.items) - {StorageKey(playerNic), PlayerKey}
    {
      storage.RemoveItem(StorageKey(playerNic));
      storage.RemoveItem(PlayerKey);
    }

    /** The save effect: writes the state under the player's key, but only
      while the quiz has not ended. */
    method Save(storage: LocalStorage)
      modifies storage
      ensures !quizEnded ==> storage.items == old(storage.items)[StorageKey(playerNic) := SessionItem(Snapshot())]
      ensures quizEnded ==> storage.items == old(storage.items)
    {
      if !quizEnded {
        storage.SetItem(StorageKey(playerNic), SessionItem(Snapshot()));
      }
    }

    /** The restore effect: a saved session that has not ended and has
      questions is resumed (with the `||` defaults); one that has ended logs
      the player out; anything else (no value, text that is not a session, a
      session without questions) leaves everything as it is. */
    method Restore(storage: LocalStorage, now: int)
      modifies this, storage
      ensures var saved := old(storage.items);
        var key := StorageKey(playerNic);
        if key in saved && saved[key].SessionItem? && Resumable(saved[key].state) then
          Snapshot() == Revived(saved[key].state, now) && storage.items == saved
        else if key in saved && saved[key].SessionItem? && saved[key].state.quizEnded then
          Snapshot() == old(Snapshot()) && storage.items == saved - {key, PlayerKey}
        else
          Snapshot() == old(Snapshot()) && storage.items == saved
      ensures var saved := old(storage.items);
        var key := StorageKey(playerNic);
        if key in saved && saved[key].SessionItem? && Resumable(saved[key].state)
        then Consistent(saved[key].state) ==> Valid()
        else old(Valid()) ==> Valid()
    {
      var key := StorageKey(playerNic);
      if key !in storage.items {
        return;
      }
      match storage.items[key]
      case RawItem(_) =>
      case SessionItem(parsed) =>
        if !parsed.quizEnded && |parsed.questions| > 0 {
          var revived := Revived(parsed, now);
          questions := revived.questions;
          currentIndex := revived.currentIndex;
          score := revived.score;
          showStart := false;
          quizEnded := false;
          quizStartTimestamp := revived.quizStartTimestamp;
          timeLeft := revived.timeLeft;
          answersGiven := revived.answersGiven;
          selectedOption := revived.selectedOption;
          if Consistent(parsed) {
            RevivedConsistent(parsed, now);
          }
        } else if parsed.quizEnded {
          HandleLogout(storage);
        }
    }
  }

  /** A page reload in the middle of a quiz: the state is saved, a new
      component for the same player restores it, and the session comes back
      unchanged, as long as no `||` default applies to it. */
  method ReloadPage(page: Questionnaire, storage: LocalStorage, now: int) returns (reloaded: Questionnaire)
    requires page.Valid() && page.Phase() == InProgress && page.questions != []
    requires Truthy(page.quizStartTimestamp) && page.selectedOption != Some("")
    modifies storage
    ensures fresh(reloaded) && reloaded.playerNic == page.playerNic
    ensures reloaded.Snapshot() == page.Snapshot() && reloaded.Valid()
  {
    page.Save(storage);
    reloaded := new Questionnaire(page.playerNic);
    reloaded.Restore(storage, now);
  }
}

/** Scenarios of the session on concrete inputs, verified statically. */
module QuizScenarios {
  import opened Quiz

  /** A bank of one question answered correctly: the score is 1 and the quiz
      is over, so a second submission changes nothing. */
  method SingleQuestionRun() returns (finalScore: int, given: nat)
    ensures finalScore == 1 && given == 1
  {
    var page := new Questionnaire("123456789V");
    var bank := [Question("Q1", ["A", "B", "C", "D"], "B")];
    ghost var picks := page.StartQuiz(bank, 1000, [0], [[0, 0, 1, 2]]);
    assert page.questions[0].answer == "B";
    page.SelectOption("B");
    page.SubmitAnswer();
    assert page.score == 1 && page.quizEnded && |page.answersGiven| == 1;
    page.SelectOption("A");
    page.SubmitAnswer();
    finalScore, given := page.score, |page.answersGiven|;
  }

  /** Six minutes after the start the quiz ends with no time left, and a
      later tick changes nothing. */
  method TimeRunsOut() returns (shown: int, ended: bool)
    ensures shown == 0 && ended
  {
    var page := new Questionnaire("123456789V");
    var bank := [Question("Q1", ["A", "B", "C", "D"], "B")];
    ghost var picks := page.StartQuiz(bank, 1000, [0], [[0, 1, 2, 3]]);
    page.Tick(1000 + 359999);
    assert page.timeLeft == 1 && !page.quizEnded;
    page.Tick(1000 + 360000);
    assert page.timeLeft == 0 && page.quizEnded;
    ghost var atEnd := page.Snapshot();
    page.Tick(1000 + 400000);
    assert page.Snapshot() == atEnd;
    shown, ended := page.timeLeft, page.quizEnded;
  }

  /** The save effect never writes a session that has ended, so the restore
      effect's logout branch is not reached for a session this component
      saved: after the last answer a reload resumes the last session saved
      in progress, and the last question can be answered again. Here the
      first answer is wrong and scores 0, and the answer after the reload
      scores 1. The component saves while the answer dialog is open, so its
      resumed session already holds the last answer. This model advances in
      one step, so here the resumed session does not. */
  method FinishedQuizResumes() returns (recorded: int, replayed: int)
    ensures recorded == 0 && replayed == 1
  {
    var storage := new LocalStorage(map[]);
    var page := new Questionnaire("123456789V");
    var bank := [Question("Q1", ["A", "B"], "B")];
    ghost var picks := page.StartQuiz(bank, 1000, [0], [[0, 0]]);
    page.SelectOption("A");
    page.Save(storage);
    page.SubmitAnswer();
    page.Save(storage);
    assert page.quizEnded;
    recorded := page.score;
    var reloaded := new Questionnaire("123456789V");
    reloaded.Restore(storage, 2000);
    assert reloaded.Phase() == InProgress;
    reloaded.SelectOption("B");
    reloaded.SubmitAnswer();
    assert reloaded.quizEnded;
    replayed := reloaded.score;
  }
}
