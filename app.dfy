/** The App component of App.tsx as an object: its React state (`idea`,
    `pitchData`, `isLoading`, `error`, `placeholder`), its refs
    (`isAnimationRunning`, the pending `typingTimeoutRef`) and the closure
    variables of the typewriter effect become fields; the `type` callback,
    the effect's cleanup, `handleIdeaChange` and `handleSubmit` become
    methods. The `await` inside `handleSubmit` splits it in two:
    `BeginSubmit` runs up to the call of the generation service and
    `Complete` runs once that call settles. */
module AppComponent {
  import opened Types
  import JsString
  import opened Typewriter

  /** The one message shown for every failed generation. */
  const FailureMessage: string :=
    "Failed to generate pitch. The model may be overloaded. Please try again in a moment."

  /** How the call of the generation service settled: it returned a pitch,
      or it threw (network error, malformed reply, anything else). */
  datatype Outcome = Generated(data: PitchData) | Failed

  class App {
    var idea: string
    var pitchData: Option<PitchData>
    var isLoading: bool
    var error: Option<string>
    var placeholder: string

    /** `isAnimationRunning.current` */
    var animationRunning: bool
    /** The delay of the tick `typingTimeoutRef` is waiting for, if any. */
    var scheduled: Option<nat>

    /** `placeholderIdeas`, the example list held in a ref. */
    const placeholderIdeas: seq<string>

    /** The closure variables of the typewriter effect. */
    var ideaIndex: nat
    var charIndex: int
    var isDeleting: bool

    function TypewriterCursor(): Cursor
      reads this
    {
      Cursor(ideaIndex, charIndex, isDeleting)
    }

    /** The component's invariant: the typewriter cursor is within bounds;
        while a request is in flight neither a result nor an error is shown;
        a result and an error are never shown together; the only error is
        the fixed message; and once the animation has stopped no tick is
        pending. */
    ghost predicate Valid()
      reads this
    {
      && Usable(placeholderIdeas)
      && Inv(placeholderIdeas, TypewriterCursor())
      && (isLoading ==> pitchData == None && error == None)
      && !(pitchData.Some? && error.Some?)
      && (error.Some? ==> error.value == FailureMessage)
      && (!animationRunning ==> scheduled == None)
    }

    /** The state at mount, before the effect's first call of `type`. */
    constructor ()
      ensures Valid()
      ensures idea == "" && pitchData == None && !isLoading && error == None
      ensures placeholder == "" && animationRunning && scheduled == None
      ensures placeholderIdeas == Ideas && TypewriterCursor() == Start
    {
      placeholderIdeas := Ideas;
      idea, pitchData, isLoading, error := "", None, false, None;
      placeholder := "";
      animationRunning, scheduled := true, None;
      ideaIndex, charIndex, isDeleting := 0, 0, false;
      IdeasUsable();
      StartInv(Ideas);
    }

    /** One call of the `type` callback: the effect's first call, or the
        pending tick firing. While the animation runs it is a `Step` of the
        typewriter: the placeholder becomes the frame's text and the next
        tick is scheduled with the frame's delay. Once stopped it shows the
        fallback text, leaves the cursor alone and schedules nothing. */
    method Tick() returns (text: string, delay: Option<nat>)
      requires Valid()
      modifies this
      ensures Valid()
      ensures old(animationRunning) ==>
        var f := Step(placeholderIdeas, old(TypewriterCursor()));
        TypewriterCursor() == f.next && text == f.text && delay == Some(f.delay)
      ensures !old(animationRunning) ==>
        text == Fallback && delay == None && TypewriterCursor() == old(TypewriterCursor())
      ensures placeholder == text && scheduled == delay
      ensures animationRunning == old(animationRunning)
      ensures idea == old(idea) && pitchData == old(pitchData)
      ensures isLoading == old(isLoading) && error == old(error)
    {
      if !animationRunning {
        placeholder := Fallback;
        text, delay := Fallback, None;
        scheduled := None;
        return;
      }
      StepPreservesInv(placeholderIdeas, TypewriterCursor());

      var fullText := placeholderIdeas[ideaIndex];
      var d := TypeDelay;
      if isDeleting {
        charIndex := charIndex - 1;
        d := DeleteDelay;
      } else {
        charIndex := charIndex + 1;
      }

      text := JsString.SubstringTo(fullText, charIndex) + CursorGlyph;
      placeholder := text;

      if !isDeleting && charIndex == |fullText| {
        isDeleting := true;
        d := PauseAtEnd;
      } else if isDeleting && charIndex == 0 {
        isDeleting := false;
        ideaIndex := (ideaIndex + 1) % |placeholderIdeas|;
        d := PauseBeforeNext;
      }

      scheduled := Some(d);
      delay := scheduled;
    }

    /** The effect's cleanup at unmount: the pending tick is cancelled. */
    method Unmount()
      requires Valid()
      modifies this
      ensures Valid()
      ensures scheduled == None
      ensures animationRunning == old(animationRunning) && TypewriterCursor() == old(TypewriterCursor())
      ensures placeholder == old(placeholder) && idea == old(idea)
      ensures pitchData == old(pitchData) && isLoading == old(isLoading) && error == old(error)
    {
      scheduled := None;
    }

    /** `handleIdeaChange`: whatever the new text, the animation stops for
        good; if it was still running the pending tick is cancelled and the
        placeholder reset to the fallback text. Then the idea becomes the new
        text. */
    method EditIdea(value: string)
      requires Valid()
      modifies this
      ensures Valid()
      ensures idea == value
      ensures !animationRunning && scheduled == None
      ensures placeholder == if old(animationRunning) then Fallback else old(placeholder)
      ensures TypewriterCursor() == old(TypewriterCursor())
      ensures pitchData == old(pitchData) && isLoading == old(isLoading) && error == old(error)
    {
      if animationRunning {
        animationRunning := false;
        scheduled := None;
        placeholder := Fallback;
      }
      idea := value;
    }

    /** `handleSubmit` up to the `await`: the animation stops for good and a
        pending tick is cancelled, the placeholder keeping whatever partial
        text it showed. The submit is then rejected, changing nothing else,
        when the idea is blank after trimming or a request is in flight.
        Otherwise the request is dispatched with the untrimmed idea: loading
        starts and the previous result and error are cleared. */
    method BeginSubmit() returns (request: Option<string>)
      requires Valid()
      modifies this
      ensures Valid()
      ensures request.Some? <==> !JsString.IsBlank(old(idea)) && !old(isLoading)
      ensures request.Some? ==> request.value == old(idea)
      ensures request.Some? ==> isLoading && pitchData == None && error == None
      ensures request.None? ==>
        isLoading == old(isLoading) && pitchData == old(pitchData) && error == old(error)
      ensures !animationRunning && scheduled == None
      ensures placeholder == old(placeholder) && idea == old(idea) && TypewriterCursor() == old(TypewriterCursor())
    {
      if animationRunning {
        animationRunning := false;
        scheduled := None;
      }
      if JsString.IsBlank(idea) || isLoading {
        return None;
      }
      isLoading := true;
      error := None;
      pitchData := None;
      request := Some(idea);
    }

    /** `handleSubmit` after the `await`: a returned pitch is stored, a
        failure stores the fixed message, and loading ends either way. Only
        the request's own state changes. */
    method Complete(outcome: Outcome)
      requires Valid() && isLoading
      modifies this
      ensures Valid()
      ensures !isLoading
      ensures outcome.Generated? ==> pitchData == Some(outcome.data) && error == None
      ensures outcome.Failed? ==> error == Some(FailureMessage) && pitchData == None
      ensures pitchData.Some? != error.Some?
      ensures idea == old(idea) && placeholder == old(placeholder)
      ensures animationRunning == old(animationRunning) && scheduled == old(scheduled)
      ensures TypewriterCursor() == old(TypewriterCursor())
    {
      match outcome {
        case Generated(data) =>
          pitchData := Some(data);
        case Failed =>
          error := Some(FailureMessage);
      }
      isLoading := false;
    }
  }

  /** A session as a user sees it: the page mounts and the typewriter
      starts, the user types an idea that is not blank and presses submit
      twice before the reply arrives. Only the first press sends a request,
      with the idea as typed; after the reply the idea is still in the input,
      no request is loading, and exactly the pitch or exactly the fixed
      message is shown. */
  method DoubleSubmit(text: string, outcome: Outcome)
    returns (first: Option<string>, second: Option<string>, idea: string,
             loading: bool, shown: Option<PitchData>, message: Option<string>)
    requires !JsString.IsBlank(text)
    ensures first == Some(text) && second == None
    ensures idea == text && !loading
    ensures outcome.Generated? ==> shown == Some(outcome.data) && message == None
    ensures outcome.Failed? ==> shown == None && message == Some(FailureMessage)
  {
    var app := new App();
    var _, _ := app.Tick();
    app.EditIdea(text);
    first := app.BeginSubmit();
    second := app.BeginSubmit();
    app.Complete(outcome);
    idea, loading, shown, message := app.idea, app.isLoading, app.pitchData, app.error;
  }

  /** Pressing submit right after mount, with the input still empty,
      sends nothing and starts no loading; it stops the animation but,
      unlike an edit, leaves the placeholder at the partial text the first
      tick rendered. */
  method SubmitBeforeTyping() returns (request: Option<string>, loading: bool,
                                       running: bool, text: string)
    ensures request == None && !loading && !running
    ensures text == Ideas[0][..1] + CursorGlyph
  {
    var app := new App();
    var _, _ := app.Tick();
    StepText(Ideas, Start);
    request := app.BeginSubmit();
    loading, running, text := app.isLoading, app.animationRunning, app.placeholder;
  }
}
