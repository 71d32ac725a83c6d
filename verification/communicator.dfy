/** The pictogram communicator as a pure state machine. Each handler takes the
    current state and returns the next state with the side effects it triggers
    (sounds, speech, gateway requests, timers, alerts) as a list of tokens. Timer
    expiries, gateway answers and speech callbacks come back in as events. */
module Communicator {
  import opened Wrappers
  import opened Text
  import opened Types
  import opened Categories
  import opened Highlight

  /** Whether the initial library is still loading, failed, or is shown. */
  datatype Phase = Loading | Failed(message: string) | Ready

  /** The utterance the speech engine is playing. A sentence utterance carries the
      text its boundary handler captured and that handler's last matched index. */
  datatype Utterance =
    | SentenceSpeech(text: string, wordIndex: nat)
    | ReplySpeech(text: string)

  datatype State = State(
    phase: Phase,
    categories: seq<PictogramCategory>,
    sentence: seq<Pictogram>,
    draggingId: Option<string>,
    overDropZone: bool,
    speakingIndex: int,
    clearing: bool,
    input: string,
    creating: bool,
    newlyCreatedId: Option<string>,
    gettingResponse: bool,
    aiResponse: string,
    utterance: Option<Utterance>)

  datatype Effect =
    | PopSound
    | ClearSound
    | CancelSpeech
    | Speak(text: string)
    | RequestPictogramSet
    | RequestSinglePictogram(word: string)
    | RequestReply(sentence: string)
    | StartClearTimer
    | StartNewBadgeTimer
    | Alert(message: string)

  datatype Event =
    | PictogramsLoaded(loaded: seq<PictogramCategory>)
    | PictogramsLoadThrew
    | DragStarted(dragged: Pictogram)
    | DragEnded
    | DragEntered
    | DragLeft
    | Dropped(dropped: Pictogram)
    | SpeakClicked
    | WordBoundary(charIndex: nat)
    | OtherBoundary
    | SpeechEnded
    | SpeechErrored
    | ClearClicked
    | ClearTimerFired
    | InputChanged(typed: string)
    | CreateClicked
    | PictogramCreated(created: Option<Pictogram>)
    | NewBadgeTimerFired
    | ReplyClicked
    | ReplyArrived(reply: string)

  datatype Transition = Transition(next: State, effects: seq<Effect>)

  const LoadEmptyMessage: string := "Não foi possível carregar os pictogramas."
  const LoadErrorMessage: string := "Ocorreu um erro ao carregar os pictogramas."
  const CreateFailedMessage: string := "Não foi possível criar a figura. Tente outra palavra."

  /** The component on mount: loading, nothing selected, no speech, and the
      library requested from the gateway. */
  function Mount(): (r: Transition)
    ensures r.next.phase == Loading && r.next.sentence == [] && r.next.speakingIndex == -1
    ensures r.next.categories == [] && r.next.draggingId == None && !r.next.overDropZone && !r.next.clearing
    ensures r.next.input == "" && !r.next.creating && r.next.newlyCreatedId == None
    ensures !r.next.gettingResponse && r.next.aiResponse == "" && r.next.utterance == None
    ensures r.effects == [RequestPictogramSet]
  {
    Transition(State(Loading, [], [], None, false, -1, false, "", false, None, false, "", None),
               [RequestPictogramSet])
  }

  /** The gateway's answer to the initial load: an empty library is an error. */
  function Loaded(s: State, cats: seq<PictogramCategory>): (r: State)
    ensures cats == [] ==> r == s.(phase := Failed(LoadEmptyMessage))
    ensures cats != [] ==> r == s.(phase := Ready, categories := cats)
  {
    if |cats| == 0 then s.(phase := Failed(LoadEmptyMessage))
    else s.(phase := Ready, categories := cats)
  }

  /** Whether a pictogram with this id is already in the sentence. */
  predicate InSentence(sentence: seq<Pictogram>, id: string) {
    id in Ids(sentence)
  }

  /** Dropping a pictogram on the sentence board. */
  function Drop(s: State, p: Pictogram): (r: Transition)
    ensures !r.next.overDropZone
    ensures InSentence(s.sentence, p.id) ==> r.next == s.(overDropZone := false) && r.effects == []
    ensures !InSentence(s.sentence, p.id) ==>
              r.next.sentence == s.sentence + [p] && r.next.aiResponse == "" && r.effects == [PopSound]
              && r.next == s.(sentence := r.next.sentence, aiResponse := "", overDropZone := false)
  {
    if !InSentence(s.sentence, p.id) then
      Transition(s.(sentence := s.sentence + [p], aiResponse := "", overDropZone := false), [PopSound])
    else
      Transition(s.(overDropZone := false), [])
  }

  /** Distinct ids survive a drop. */
  lemma DropKeepsIdsDistinct(s: State, p: Pictogram)
    requires DistinctIds(s.sentence)
    ensures DistinctIds(Drop(s, p).next.sentence)
    ensures InSentence(Drop(s, p).next.sentence, p.id)
  {
    var t := Drop(s, p).next.sentence;
    if !InSentence(s.sentence, p.id) {
      assert t == s.sentence + [p];
      forall i, j | 0 <= i < j < |t| ensures t[i].id != t[j].id {
        if j == |t| - 1 {
          assert t[i].id == Ids(s.sentence)[i];
        }
      }
      assert Ids(t)[|t| - 1] == p.id;
    } else {
      assert t == s.sentence;
    }
  }

  /** The sentence dropped pictogram by pictogram, from a starting sentence. */
  function DropAll(s: State, ps: seq<Pictogram>): State
    decreases |ps|
  {
    if ps == [] then s else DropAll(Drop(s, ps[0]).next, ps[1..])
  }

  /** However pictograms are dropped, and however often the same one is dropped,
      the sentence never holds two pictograms with the same id, and every dropped
      id ends up in it. */
  lemma {:induction false} DropAllKeepsIdsDistinct(s: State, ps: seq<Pictogram>)
    requires DistinctIds(s.sentence)
    ensures DistinctIds(DropAll(s, ps).sentence)
    ensures forall i :: 0 <= i < |ps| ==> InSentence(DropAll(s, ps).sentence, ps[i].id)
    decreases |ps|
  {
    if ps != [] {
      var s1 := Drop(s, ps[0]).next;
      DropKeepsIdsDistinct(s, ps[0]);
      DropAllKeepsIdsDistinct(s1, ps[1..]);
      DropAllKeepsEarlier(s1, ps[1..], ps[0].id);
      forall i | 1 <= i < |ps| ensures InSentence(DropAll(s, ps).sentence, ps[i].id) {
        assert ps[i] == ps[1..][i - 1];
      }
    }
  }

  /** Drops only ever add to the sentence. */
  lemma {:induction false} DropAllKeepsEarlier(s: State, ps: seq<Pictogram>, id: string)
    requires InSentence(s.sentence, id)
    ensures InSentence(DropAll(s, ps).sentence, id)
    decreases |ps|
  {
    if ps != [] {
      var s1 := Drop(s, ps[0]).next;
      var k :| 0 <= k < |s.sentence| && Ids(s.sentence)[k] == id;
      assert Ids(s1.sentence)[k] == id;
      DropAllKeepsEarlier(s1, ps[1..], id);
    }
  }

  /** The sentence text: the labels joined with single spaces. */
  function SentenceText(sentence: seq<Pictogram>): (r: string)
    ensures sentence == [] ==> r == []
    ensures sentence != [] ==> StartsWith(r, sentence[0].word)
    ensures sentence != [] ==> |r| == TotalLength(Labels(sentence)) + |sentence| - 1
  {
    Join(Labels(sentence))
  }

  /** The handler that runs when an utterance ends or fails: the highlight is
      switched off and, for a reply, the reply latch is released. */
  function Finish(s: State): (r: State)
    requires s.utterance.Some?
    ensures r.utterance == None && r.speakingIndex == -1
    ensures r.gettingResponse == (s.gettingResponse && !s.utterance.value.ReplySpeech?)
    ensures r == s.(utterance := None, speakingIndex := -1, gettingResponse := r.gettingResponse)
  {
    match s.utterance.value
    case ReplySpeech(_) => s.(utterance := None, speakingIndex := -1, gettingResponse := false)
    case SentenceSpeech(_, _) => s.(utterance := None, speakingIndex := -1)
  }

  /** The engine reports that speech is over, by `onend` or `onerror`: the
      utterance that was playing, if any, runs its end-or-error handler. */
  function SpeechOver(s: State): (r: State)
    ensures r.utterance == None
    ensures s.utterance.None? ==> r == s
    ensures s.utterance.Some? ==> r == Finish(s)
  {
    if s.utterance.Some? then Finish(s) else s
  }

  /** `speechSynthesis.cancel()`: an utterance that was playing is interrupted,
      which ends it just as `onend` would. */
  function CancelUtterance(s: State): (r: State)
    ensures r.utterance == None
    ensures s.utterance.None? ==> r == s
    ensures s.utterance.Some? ==> r == Finish(s)
  {
    SpeechOver(s)
  }

  /** `speakText`: cancel whatever is playing, then play `u`. */
  function SpeakText(s: State, u: Utterance): (r: Transition)
    ensures r.next == CancelUtterance(s).(utterance := Some(u))
    ensures r.effects == [CancelSpeech, Speak(u.text)]
  {
    Transition(CancelUtterance(s).(utterance := Some(u)), [CancelSpeech, Speak(u.text)])
  }

  /** The "Falar" button: speak the sentence and start highlighting at the first
      pictogram; nothing happens with an empty sentence or while speech plays. */
  function SpeakSentence(s: State): (r: Transition)
    ensures s.sentence == [] || s.utterance.Some? ==> r == Transition(s, [])
    ensures s.sentence != [] && s.utterance.None? ==>
              r.effects == [CancelSpeech, Speak(SentenceText(s.sentence))]
              && r.next.utterance == Some(SentenceSpeech(SentenceText(s.sentence), 0))
              && r.next == s.(speakingIndex := 0, utterance := Some(SentenceSpeech(SentenceText(s.sentence), 0)))
  {
    if |s.sentence| == 0 || s.utterance.Some? then Transition(s, [])
    else
      var text := SentenceText(s.sentence);
      SpeakText(s.(speakingIndex := 0), SentenceSpeech(text, 0))
  }

  /** The spoken text splits back into the labels, one word per pictogram, when no
      label contains a space. */
  lemma SpokenTextRoundTrip(sentence: seq<Pictogram>)
    requires sentence != [] && NoSpaces(Labels(sentence))
    ensures Split(SentenceText(sentence)) == Labels(sentence)
  {
    SplitJoin(Labels(sentence));
  }

  /** The example sentence "eu quero água" is spoken from three pictograms. */
  lemma ExampleSentenceText()
    ensures SentenceText([Pictogram("eu-1", "eu", ""), Pictogram("quero-2", "quero", ""),
                          Pictogram("água-3", "água", "")]) == "eu quero água"
  {
    var ps := [Pictogram("eu-1", "eu", ""), Pictogram("quero-2", "quero", ""), Pictogram("água-3", "água", "")];
    var ws := ["eu", "quero", "água"];
    assert Labels(ps) == ws;
    assert ws[1..] == ["quero", "água"] && ws[1..][1..] == ["água"];
    assert Join(["água"]) == "água";
    assert Join(["quero", "água"]) == "quero" + " " + "água";
    assert Join(ws) == "eu" + " " + ("quero" + " " + "água");
  }

  /** A word-boundary event of the sentence utterance: the labels of the sentence
      as it is now are matched against the word starting at `charIndex` of the
      captured text. Reply speech has no boundary handler.
      When the label at the last matched index matches again, the source sets
      the highlight to that same index; this returns `s` unchanged instead, which
      is the same state whenever `HighlightTracksSpeech` holds, as it does in
      every reachable state (`ReachableInvariant`). */
  function Boundary(s: State, charIndex: nat): (r: State)
    ensures s.utterance.None? || s.utterance.value.ReplySpeech? ==> r == s
    ensures s.utterance.Some? && s.utterance.value.SentenceSpeech? ==>
              var w := s.utterance.value.wordIndex;
              var w' := NextWordIndex(Labels(s.sentence), s.utterance.value.text, w, charIndex);
              r.utterance == Some(SentenceSpeech(s.utterance.value.text, w'))
              && (w' == w ==> r == s)
              && (w' != w ==> r == s.(utterance := r.utterance, speakingIndex := w'))
  {
    match s.utterance
    case Some(SentenceSpeech(text, w)) =>
      var w' := NextWordIndex(Labels(s.sentence), text, w, charIndex);
      if w' == w then s else s.(utterance := Some(SentenceSpeech(text, w')), speakingIndex := w')
    case _ => s
  }

  /** The trash button. With an empty sentence nothing happens; otherwise speech
      is cancelled, the highlight and the reply are cleared and the exit animation
      starts. The sentence itself is emptied when the 500 ms timer fires. */
  function Clear(s: State): (r: Transition)
    ensures s.sentence == [] ==> r == Transition(s, [])
    ensures s.sentence != [] ==>
              r.effects == [CancelSpeech, ClearSound, StartClearTimer]
              && r.next.clearing && r.next.speakingIndex == -1 && r.next.aiResponse == ""
              && r.next.utterance == None && r.next.sentence == s.sentence
              && r.next.gettingResponse == (s.gettingResponse && !(s.utterance.Some? && s.utterance.value.ReplySpeech?))
              && r.next == CancelUtterance(s).(speakingIndex := -1, clearing := true, aiResponse := "")
  {
    if |s.sentence| == 0 then Transition(s, [])
    else
      var c := CancelUtterance(s);
      Transition(c.(speakingIndex := -1, clearing := true, aiResponse := ""),
                 [CancelSpeech, ClearSound, StartClearTimer])
  }

  /** The 500 ms clear timer. */
  function ClearTimer(s: State): (r: State)
    ensures r.sentence == [] && !r.clearing
    ensures r == s.(sentence := [], clearing := false)
  {
    s.(sentence := [], clearing := false)
  }

  /** A non-empty sentence is empty, and no longer animating, once the clear timer
      has fired; the clear cancelled any speech. */
  lemma ClearThenTimer(s: State)
    requires s.sentence != []
    ensures Clear(s).effects != []
    ensures var t := ClearTimer(Clear(s).next);
            t.sentence == [] && !t.clearing && t.utterance == None && t.speakingIndex == -1
  {
  }

  /** "Criar Figura": rejected for white-space-only input or while a creation is
      in flight; otherwise the gateway is asked for the trimmed word. */
  function CreatePictogram(s: State): (r: Transition)
    ensures AllWhitespace(s.input) || s.creating ==> r == Transition(s, [])
    ensures !AllWhitespace(s.input) && !s.creating ==>
              r.next == s.(creating := true) && r.effects == [RequestSinglePictogram(Trim(s.input))]
  {
    if |Trim(s.input)| == 0 || s.creating then Transition(s, [])
    else Transition(s.(creating := true), [RequestSinglePictogram(Trim(s.input))])
  }

  /** The gateway's answer to a creation. A new pictogram is filed under "Coisas",
      the input is cleared and the pictogram is marked new for 2 s; a failure is
      an alert. Either way the creation latch is released. */
  function Created(s: State, result: Option<Pictogram>): (r: Transition)
    ensures !r.next.creating
    ensures result.None? ==> r.next == s.(creating := false) && r.effects == [Alert(CreateFailedMessage)]
    ensures result.Some? ==>
              r.next.categories == AddToCoisas(s.categories, result.value)
              && r.next.input == "" && r.next.newlyCreatedId == Some(result.value.id)
              && r.effects == [StartNewBadgeTimer]
              && r.next == s.(categories := r.next.categories, input := "",
                              newlyCreatedId := r.next.newlyCreatedId, creating := false)
  {
    match result
    case Some(p) =>
      Transition(s.(categories := AddToCoisas(s.categories, p), input := "",
                    newlyCreatedId := Some(p.id), creating := false),
                 [StartNewBadgeTimer])
    case None =>
      Transition(s.(creating := false), [Alert(CreateFailedMessage)])
  }

  /** "Ouvir Resposta": ask the gateway for a reply to the sentence, unless the
      sentence is empty or a reply is already in flight. */
  function RequestResponse(s: State): (r: Transition)
    ensures s.sentence == [] || s.gettingResponse ==> r == Transition(s, [])
    ensures s.sentence != [] && !s.gettingResponse ==>
              r.next == s.(gettingResponse := true, aiResponse := "")
              && r.effects == [RequestReply(SentenceText(s.sentence))]
  {
    if |s.sentence| == 0 || s.gettingResponse then Transition(s, [])
    else Transition(s.(gettingResponse := true, aiResponse := ""), [RequestReply(SentenceText(s.sentence))])
  }

  /** The gateway's reply: shown, then spoken; the latch stays set until that
      speech ends. */
  function ReplyReceived(s: State, reply: string): (r: Transition)
    ensures r.next.aiResponse == reply
    ensures r.next.utterance == Some(ReplySpeech(reply))
    ensures r.next == CancelUtterance(s).(aiResponse := reply, utterance := Some(ReplySpeech(reply)))
    ensures r.effects == [CancelSpeech, Speak(reply)]
  {
    SpeakText(s.(aiResponse := reply), ReplySpeech(reply))
  }

  /** Whether the event comes from the rendered library view, which exists only
      once the library has loaded. */
  predicate IsUserEvent(e: Event) {
    e.DragStarted? || e.DragEnded? || e.DragEntered? || e.DragLeft? || e.Dropped? || e.SpeakClicked?
    || e.ClearClicked? || e.InputChanged? || e.CreateClicked? || e.ReplyClicked?
  }

  /** One event applied to the state. User events are ignored unless the library
      view is shown. */
  function Step(s: State, e: Event): (r: Transition)
    ensures IsUserEvent(e) && s.phase != Ready ==> r == Transition(s, [])
    ensures s.phase == Ready && e.Dropped? ==> r == Drop(s, e.dropped)
    ensures s.phase == Ready && e.SpeakClicked? ==> r == SpeakSentence(s)
    ensures s.phase == Ready && e.ClearClicked? ==> r == Clear(s)
    ensures s.phase == Ready && e.CreateClicked? ==> r == CreatePictogram(s)
    ensures s.phase == Ready && e.ReplyClicked? ==> r == RequestResponse(s)
    ensures e.WordBoundary? ==> r == Transition(Boundary(s, e.charIndex), [])
    ensures e.SpeechEnded? || e.SpeechErrored? ==> r == Transition(SpeechOver(s), [])
    ensures e.OtherBoundary? ==> r == Transition(s, [])
    ensures e.PictogramsLoaded? ==> r == Transition(Loaded(s, e.loaded), [])
    ensures e.PictogramsLoadThrew? ==> r == Transition(s.(phase := Failed(LoadErrorMessage)), [])
    ensures s.phase == Ready && e.DragStarted? ==> r == Transition(s.(draggingId := Some(e.dragged.id)), [])
    ensures s.phase == Ready && e.DragEnded? ==> r == Transition(s.(draggingId := None), [])
    ensures s.phase == Ready && e.DragEntered? ==> r == Transition(s.(overDropZone := true), [])
    ensures s.phase == Ready && e.DragLeft? ==> r == Transition(s.(overDropZone := false), [])
    ensures s.phase == Ready && e.InputChanged? ==> r == Transition(s.(input := e.typed), [])
    ensures e.NewBadgeTimerFired? ==> r == Transition(s.(newlyCreatedId := None), [])
    ensures e.ClearTimerFired? ==> r == Transition(ClearTimer(s), [])
    ensures e.PictogramCreated? ==> r == Created(s, e.created)
    ensures e.ReplyArrived? ==> r == ReplyReceived(s, e.reply)
  {
    if IsUserEvent(e) && s.phase != Ready then Transition(s, [])
    else
      match e
      case PictogramsLoaded(cats) => Transition(Loaded(s, cats), [])
      case PictogramsLoadThrew => Transition(s.(phase := Failed(LoadErrorMessage)), [])
      case DragStarted(p) => Transition(s.(draggingId := Some(p.id)), [])
      case DragEnded => Transition(s.(draggingId := None), [])
      case DragEntered => Transition(s.(overDropZone := true), [])
      case DragLeft => Transition(s.(overDropZone := false), [])
      case Dropped(p) => Drop(s, p)
      case SpeakClicked => SpeakSentence(s)
      case WordBoundary(i) => Transition(Boundary(s, i), [])
      case OtherBoundary => Transition(s, [])
      case SpeechEnded => Transition(SpeechOver(s), [])
      case SpeechErrored => Transition(SpeechOver(s), [])
      case ClearClicked => Clear(s)
      case ClearTimerFired => Transition(ClearTimer(s), [])
      case InputChanged(t) => Transition(s.(input := t), [])
      case CreateClicked => CreatePictogram(s)
      case PictogramCreated(res) => Created(s, res)
      case NewBadgeTimerFired => Transition(s.(newlyCreatedId := None), [])
      case ReplyClicked => RequestResponse(s)
      case ReplyArrived(reply) => ReplyReceived(s, reply)
  }

  /** The state after a whole sequence of events. */
  function Run(s: State, es: seq<Event>): State
    decreases |es|
  {
    if es == [] then s else Run(Step(s, es[0]).next, es[1..])
  }

  /** The highlight follows the boundary handler's last matched index while a
      sentence is being spoken. */
  predicate HighlightTracksSpeech(s: State) {
    s.utterance.Some? && s.utterance.value.SentenceSpeech? ==> s.speakingIndex == s.utterance.value.wordIndex
  }

  /** What holds in every reachable state. */
  predicate Invariant(s: State) {
    DistinctIds(s.sentence) && HighlightTracksSpeech(s)
  }

  /** Every event keeps the invariant. */
  lemma StepKeepsInvariant(s: State, e: Event)
    requires Invariant(s)
    ensures Invariant(Step(s, e).next)
  {
    if !(IsUserEvent(e) && s.phase != Ready) {
      match e
      case Dropped(p) => DropKeepsIdsDistinct(s, p);
      case _ =>
    }
  }

  /** Every sequence of events from mount keeps the invariant: in particular no
      sentence ever holds two pictograms with the same id. */
  lemma {:induction false} RunKeepsInvariant(s: State, es: seq<Event>)
    requires Invariant(s)
    ensures Invariant(Run(s, es))
    decreases |es|
  {
    if es != [] {
      StepKeepsInvariant(s, es[0]);
      RunKeepsInvariant(Step(s, es[0]).next, es[1..]);
    }
  }

  /** The invariant holds from mount on. */
  lemma ReachableInvariant(es: seq<Event>)
    ensures Invariant(Run(Mount().next, es))
    ensures DistinctIds(Run(Mount().next, es).sentence)
  {
    RunKeepsInvariant(Mount().next, es);
  }

  /** Within one sentence utterance the highlight never moves backwards: whenever
      the same utterance is still playing after an event, its matched index and
      the highlighted index have not decreased. */
  lemma HighlightMonotone(s: State, e: Event)
    requires Invariant(s)
    requires s.utterance.Some? && s.utterance.value.SentenceSpeech?
    requires var n := Step(s, e).next;
             n.utterance.Some? && n.utterance.value.SentenceSpeech? && n.utterance.value.text == s.utterance.value.text
    ensures Step(s, e).next.utterance.value.wordIndex >= s.utterance.value.wordIndex
    ensures Step(s, e).next.speakingIndex >= s.speakingIndex
  {
    if IsUserEvent(e) && s.phase != Ready {
    } else {
      match e
      case WordBoundary(i) =>
      case Dropped(p) =>
      case ClearClicked =>
      case ReplyArrived(reply) =>
      case SpeakClicked =>
      case _ =>
    }
  }

  /** The end or the failure of speech switches the highlight off. */
  lemma SpeechEndResetsHighlight(s: State, e: Event)
    requires s.utterance.Some?
    requires e == SpeechEnded || e == SpeechErrored
    ensures Step(s, e).next.speakingIndex == -1 && Step(s, e).next.utterance == None
  {
  }

  /** The reply latch is released only when the reply's own speech ends, fails or
      is interrupted (by the trash button or by the next reply). */
  lemma ReplyLatchReleasedOnlyBySpeech(s: State, e: Event)
    requires s.gettingResponse && !Step(s, e).next.gettingResponse
    ensures s.utterance.Some? && s.utterance.value.ReplySpeech?
    ensures e == SpeechEnded || e == SpeechErrored || e == ClearClicked || e.ReplyArrived?
  {
  }

  /** A reply request keeps its latch set until its speech is over: after the
      reply arrives and is spoken, the end of that speech releases it. */
  lemma ReplyLatchCycle(s: State, reply: string)
    requires s.phase == Ready && s.sentence != [] && !s.gettingResponse
    requires s.utterance.None? || s.utterance.value.SentenceSpeech?
    ensures var s1 := Step(s, ReplyClicked).next;
            var s2 := Step(s1, ReplyArrived(reply)).next;
            var s3 := Step(s2, SpeechEnded).next;
            s1.gettingResponse && s2.gettingResponse && !s3.gettingResponse
            && Step(s1, ReplyClicked) == Transition(s1, [])
  {
  }

  /** Creating from white space never reaches the gateway. */
  lemma BlankInputNeverRequests(s: State)
    requires AllWhitespace(s.input)
    ensures forall k :: 0 <= k < |Step(s, CreateClicked).effects| ==> !Step(s, CreateClicked).effects[k].RequestSinglePictogram?
  {
  }
}
