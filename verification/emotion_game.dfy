/** The emotion game as a pure state machine: mode selection, question loading,
    the answer guard, and the streak counter that pays a reward every
    `MaxProgress` correct answers in a row. Sounds, gateway requests and the reward
    timer are emitted as effect tokens. */
module EmotionGame {
  import opened Wrappers
  import opened Text
  import opened Types

  /** Correct answers in a row needed for the reward. */
  const MaxProgress: int := 5

  datatype GameMode = Selection | GuessTheFace | GuessTheStory

  datatype AnswerStatus = Unanswered | Correct | Incorrect

  datatype State = State(
    mode: GameMode,
    question: Option<Question>,
    loading: bool,
    error: Option<string>,
    status: AnswerStatus,
    selected: Option<string>,
    progress: int,
    showReward: bool)

  datatype Effect =
    | RequestFaceQuestion
    | RequestStoryQuestion
    | CorrectSound
    | IncorrectSound
    | ProgressSound
    | SuccessSound
    | StartRewardTimer

  datatype Event =
    | ModeChosen(chosen: GameMode)
    | QuestionLoaded(result: Option<Question>)
    | QuestionLoadThrew
    | OptionClicked(index: nat)
    | NextClicked
    | RewardTimerFired

  datatype Transition = Transition(next: State, effects: seq<Effect>)

  const MissingQuestionMessage: string := "Não foi possível carregar a pergunta."
  const LoadErrorMessage: string := "Ocorreu um erro ao carregar a pergunta."

  /** The selection screen, before any game is chosen. */
  function Initial(): (r: State)
    ensures r.mode == Selection && r.progress == 0 && r.status == Unanswered && !r.showReward
    ensures r.question == None && !r.loading && r.error == None && r.selected == None
  {
    State(Selection, None, false, None, Unanswered, None, 0, false)
  }

  /** The answer a question expects: the emotion of a face question, the correct
      emotion of a story question. */
  function CorrectValue(q: Question): (r: string)
    ensures q.FaceQuestion? ==> r == q.emotion
    ensures q.StoryQuestion? ==> r == q.correctEmotion
  {
    match q
    case FaceQuestion(emotion, _, _) => emotion
    case StoryQuestion(_, correctEmotion, _) => correctEmotion
  }

  /** The value each option button submits: the text of a face option, the emotion
      of a story option. */
  function OptionValues(q: Question): (r: seq<string>)
    ensures q.FaceQuestion? ==> |r| == |q.faceOptions| && forall i :: 0 <= i < |r| ==> r[i] == q.faceOptions[i].text
    ensures q.StoryQuestion? ==> |r| == |q.storyOptions| && forall i :: 0 <= i < |r| ==> r[i] == q.storyOptions[i].emotion
  {
    match q
    case FaceQuestion(_, _, opts) => seq(|opts|, i requires 0 <= i < |opts| => opts[i].text)
    case StoryQuestion(_, _, opts) => seq(|opts|, i requires 0 <= i < |opts| => opts[i].emotion)
  }

  /** The gateway request for a mode: the face generator for the face game, the
      story generator otherwise. */
  function RequestFor(mode: GameMode): (r: Effect)
    ensures r.RequestFaceQuestion? || r.RequestStoryQuestion?
    ensures r.RequestFaceQuestion? <==> mode == GuessTheFace
  {
    if mode == GuessTheFace then RequestFaceQuestion else RequestStoryQuestion
  }

  /** Loading the next question: the answer state and the error are reset, the
      question is requested, and progress and the shown question stay. */
  function LoadNextQuestion(s: State, mode: GameMode): (r: Transition)
    ensures r.next.loading && r.next.error == None
    ensures r.next.status == Unanswered && r.next.selected == None
    ensures r.next.progress == s.progress && r.next.question == s.question
    ensures r.next.mode == s.mode && r.next.showReward == s.showReward
    ensures r.effects == [RequestFor(mode)]
  {
    Transition(s.(loading := true, error := None, status := Unanswered, selected := None), [RequestFor(mode)])
  }

  /** The gateway's answer: a question replaces the shown one; a missing one is an
      error and the previous question is kept. */
  function QuestionArrived(s: State, result: Option<Question>): (r: State)
    ensures !r.loading
    ensures result.Some? ==> r == s.(question := result, loading := false)
    ensures result.None? ==> r == s.(error := Some(MissingQuestionMessage), loading := false)
  {
    match result
    case Some(q) => s.(question := Some(q), loading := false)
    case None => s.(error := Some(MissingQuestionMessage), loading := false)
  }

  /** Choosing a game: the mode is set, progress starts from zero and the first
      question is loaded. */
  function StartGame(s: State, mode: GameMode): (r: Transition)
    ensures r.next.mode == mode && r.next.progress == 0
    ensures r.next.loading && r.next.status == Unanswered && r.next.selected == None && r.next.error == None
    ensures r.next.question == s.question && r.next.showReward == s.showReward
    ensures r.effects == [RequestFor(mode)]
  {
    LoadNextQuestion(s.(mode := mode, progress := 0), mode)
  }

  /** `setShowReward(true)` and its effect: the success sound and the 2.5 s timer
      start only when the reward was not already showing. */
  function ShowReward(s: State): (r: Transition)
    ensures r.next == s.(showReward := true)
    ensures !s.showReward ==> r.effects == [SuccessSound, StartRewardTimer]
    ensures s.showReward ==> r.effects == []
  {
    if s.showReward then Transition(s, [])
    else Transition(s.(showReward := true), [SuccessSound, StartRewardTimer])
  }

  /** Submitting an answer. Once the question is answered nothing changes. A
      correct answer (case-insensitive) plays the correct sound and advances the
      streak, which pays the reward and starts over on reaching `MaxProgress`;
      a wrong answer plays the incorrect sound and forfeits the streak. */
  function HandleAnswer(s: State, optionValue: string, correctValue: string): (r: Transition)
    ensures s.status != Unanswered ==> r == Transition(s, [])
    ensures s.status == Unanswered && EqualsIgnoringCase(optionValue, correctValue) ==>
              r.next.status == Correct && r.next.selected == Some(optionValue)
              && (s.progress + 1 >= MaxProgress ==>
                    r.next.progress == 0 && r.next.showReward
                    && r.effects == [CorrectSound] + (if s.showReward then [] else [SuccessSound, StartRewardTimer]))
              && (s.progress + 1 < MaxProgress ==>
                    r.next.progress == s.progress + 1 && r.next.showReward == s.showReward
                    && r.effects == [CorrectSound, ProgressSound])
    ensures s.status == Unanswered && !EqualsIgnoringCase(optionValue, correctValue) ==>
              r.next.status == Incorrect && r.next.selected == Some(optionValue) && r.next.progress == 0
              && r.next.showReward == s.showReward && r.effects == [IncorrectSound]
    ensures r.next.mode == s.mode && r.next.question == s.question
    ensures r.next.loading == s.loading && r.next.error == s.error
  {
    if s.status != Unanswered then Transition(s, [])
    else
      var answered := s.(selected := Some(optionValue));
      if ToLower(optionValue) == ToLower(correctValue) then
        var t := answered.(status := Correct);
        var newProgress := s.progress + 1;
        if newProgress >= MaxProgress then
          var reward := ShowReward(t.(progress := 0));
          Transition(reward.next, [CorrectSound] + reward.effects)
        else
          Transition(t.(progress := newProgress), [CorrectSound, ProgressSound])
      else
        Transition(answered.(status := Incorrect, progress := 0), [IncorrectSound])
  }

  /** Whether a question with its option buttons is on screen. */
  predicate Rendered(s: State) {
    s.mode != Selection && !s.loading && s.error.None? && s.question.Some?
  }

  /** One event applied to the state. Mode buttons exist only on the selection
      screen, option and "next" buttons only under a shown question, and "next"
      only once the question is answered. */
  function Step(s: State, e: Event): (r: Transition)
    ensures e.ModeChosen? && (s.mode != Selection || e.chosen == Selection) ==> r == Transition(s, [])
    ensures e.ModeChosen? && s.mode == Selection && e.chosen != Selection ==> r == StartGame(s, e.chosen)
    ensures e.OptionClicked? && !Rendered(s) ==> r == Transition(s, [])
    ensures e.OptionClicked? && Rendered(s) && e.index < |OptionValues(s.question.value)| ==>
              r == HandleAnswer(s, OptionValues(s.question.value)[e.index], CorrectValue(s.question.value))
    ensures e.NextClicked? && !(Rendered(s) && s.status != Unanswered) ==> r == Transition(s, [])
    ensures e.NextClicked? && Rendered(s) && s.status != Unanswered ==> r == LoadNextQuestion(s, s.mode)
    ensures e.QuestionLoaded? ==> r == Transition(QuestionArrived(s, e.result), [])
    ensures e.QuestionLoadThrew? ==> r == Transition(s.(error := Some(LoadErrorMessage), loading := false), [])
    ensures e.RewardTimerFired? ==> r == Transition(s.(showReward := false), [])
  {
    match e
    case ModeChosen(m) =>
      if s.mode == Selection && m != Selection then StartGame(s, m) else Transition(s, [])
    case QuestionLoaded(res) => Transition(QuestionArrived(s, res), [])
    case QuestionLoadThrew => Transition(s.(error := Some(LoadErrorMessage), loading := false), [])
    case OptionClicked(i) =>
      if Rendered(s) && i < |OptionValues(s.question.value)| then
        HandleAnswer(s, OptionValues(s.question.value)[i], CorrectValue(s.question.value))
      else Transition(s, [])
    case NextClicked =>
      if Rendered(s) && s.status != Unanswered then LoadNextQuestion(s, s.mode) else Transition(s, [])
    case RewardTimerFired => Transition(s.(showReward := false), [])
  }

  /** The state after a whole sequence of events. */
  function Run(s: State, es: seq<Event>): State
    decreases |es|
  {
    if es == [] then s else Run(Step(s, es[0]).next, es[1..])
  }

  predicate ProgressInBounds(s: State) {
    0 <= s.progress < MaxProgress
  }

  /** Every event keeps the streak within `[0, MaxProgress - 1]`. */
  lemma StepKeepsProgressInBounds(s: State, e: Event)
    requires ProgressInBounds(s)
    ensures ProgressInBounds(Step(s, e).next)
  {
  }

  /** After any sequence of events from the selection screen the streak stays
      within `[0, MaxProgress - 1]`. */
  lemma {:induction false} RunKeepsProgressInBounds(s: State, es: seq<Event>)
    requires ProgressInBounds(s)
    ensures ProgressInBounds(Run(s, es))
    decreases |es|
  {
    if es != [] {
      StepKeepsProgressInBounds(s, es[0]);
      RunKeepsProgressInBounds(Step(s, es[0]).next, es[1..]);
    }
  }

  lemma ReachableProgressInBounds(es: seq<Event>)
    ensures 0 <= Run(Initial(), es).progress < MaxProgress
  {
    RunKeepsProgressInBounds(Initial(), es);
  }

  /** A correct answer at `MaxProgress - 1` pays the reward and starts over; a
      correct answer below it advances by one with no reward. */
  lemma CorrectAnswerStreak(s: State, optionValue: string, correctValue: string)
    requires ProgressInBounds(s) && s.status == Unanswered && !s.showReward
    requires EqualsIgnoringCase(optionValue, correctValue)
    ensures var r := HandleAnswer(s, optionValue, correctValue);
            (s.progress == MaxProgress - 1 <==> SuccessSound in r.effects)
            && (s.progress == MaxProgress - 1 ==> r.next.progress == 0 && r.next.showReward)
            && (s.progress < MaxProgress - 1 ==> r.next.progress == s.progress + 1 && !r.next.showReward)
  {
  }

  /** A second submission for the same question changes nothing, whatever is
      submitted. */
  lemma AnswerOnce(s: State, first: string, second: string, correctValue: string)
    ensures var t := HandleAnswer(s, first, correctValue).next;
            HandleAnswer(t, second, correctValue) == Transition(t, [])
  {
  }

  /** Clicking an option of a shown, unanswered question is judged correct exactly
      when the option's value equals the question's expected value ignoring case. */
  lemma ClickIsCorrectIff(s: State, i: nat)
    requires Rendered(s) && s.status == Unanswered
    requires i < |OptionValues(s.question.value)|
    ensures Step(s, OptionClicked(i)).next.status == Correct
            <==> ToLower(OptionValues(s.question.value)[i]) == ToLower(CorrectValue(s.question.value))
    ensures Step(s, OptionClicked(i)).next.status == Incorrect
            <==> ToLower(OptionValues(s.question.value)[i]) != ToLower(CorrectValue(s.question.value))
  {
  }

  /** The reward shown at the end of a streak is dismissed when its timer fires. */
  lemma RewardDismissed(s: State, optionValue: string, correctValue: string)
    requires s.status == Unanswered && s.progress == MaxProgress - 1
    requires EqualsIgnoringCase(optionValue, correctValue)
    ensures HandleAnswer(s, optionValue, correctValue).next.showReward
    ensures !Step(HandleAnswer(s, optionValue, correctValue).next, RewardTimerFired).next.showReward
  {
  }

  /** The face-game example: options alegria, tristeza, raiva, surpresa with
      "alegria" correct. "tristeza" is wrong and forfeits the streak; "ALEGRIA" is
      right despite its case. */
  lemma FaceGameExample(progress: int)
    requires 0 <= progress < MaxProgress
    ensures var q := FaceQuestion("alegria", "",
                       [FaceOption("alegria", "😀"), FaceOption("tristeza", "😢"),
                        FaceOption("raiva", "😠"), FaceOption("surpresa", "😲")]);
            var s := State(GuessTheFace, Some(q), false, None, Unanswered, None, progress, false);
            var wrong := Step(s, OptionClicked(1)).next;
            var right := HandleAnswer(s, "ALEGRIA", CorrectValue(q)).next;
            wrong.status == Incorrect && wrong.progress == 0
            && right.status == Correct
  {
    var q := FaceQuestion("alegria", "",
               [FaceOption("alegria", "😀"), FaceOption("tristeza", "😢"),
                FaceOption("raiva", "😠"), FaceOption("surpresa", "😲")]);
    var s := State(GuessTheFace, Some(q), false, None, Unanswered, None, progress, false);
    assert Rendered(s);
    assert CorrectValue(q) == "alegria";
    assert OptionValues(q)[1] == "tristeza";
    assert Step(s, OptionClicked(1)) == HandleAnswer(s, "tristeza", "alegria");
    assert ToLower("tristeza")[0] != ToLower("alegria")[0];
    assert !EqualsIgnoringCase("tristeza", "alegria");
    LowerAlegria();
  }

  lemma LowerAlegria()
    ensures ToLower("ALEGRIA") == ToLower("alegria")
  {
    var u := "ALEGRIA";
    var l := "alegria";
    forall i | 0 <= i < 7 ensures ToLower(u)[i] == ToLower(l)[i] {
      assert LowerChar(u[i]) == l[i];
      assert LowerChar(l[i]) == l[i];
    }
  }
}
