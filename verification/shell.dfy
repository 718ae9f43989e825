/** The application shell: the state the top-level component keeps, its two
    handlers, the Simplify-button predicate, and the event machine that the
    panels drive. Each handler is one atomic transition; network replies and
    file reads arrive as event parameters. */
module Shell {
  import opened Wrappers
  import opened Types
  import opened Text
  import opened Pcm
  import opened Speech
  import opened Simplify
  import opened InputArea
  import opened OptionsPanel
  import opened OutputDisplay

  /** The component's `useState` hooks. `error` is `None` for `null`. */
  datatype State = State(
    input: string,
    attachment: Option<Attachment>,
    output: string,
    loading: bool,
    speaking: bool,
    error: Option<string>,
    options: Options)

  const MissingInput: string := "Please enter text or upload a file."
  const SomethingWrong: string := "Something went wrong."

  /** The options the page opens with. */
  const InitialOptions: Options := Options(HighSchool, false, true)

  /** The page as first rendered. */
  const Initial: State := State("", None, "", false, false, None, InitialOptions)

  /** `!inputContent.trim() && !attachment`: there is nothing to simplify. */
  predicate NothingToSimplify(s: State) {
    Trim(s.input) == "" && s.attachment.None?
  }

  /** The Simplify button accepts clicks: not loading, and there is text
      that survives trimming or an attachment. */
  function SimplifyEnabled(s: State): (enabled: bool)
    ensures enabled <==> !s.loading && (!Blank(s.input) || s.attachment.Some?)
  {
    TrimEmptyIffBlank(s.input);
    !(s.loading || NothingToSimplify(s))
  }

  /** The synchronous start of `handleSimplify`: the missing-input error, or
      the loading state with error and output cleared. */
  function BeginSimplify(s: State): (r: State)
    ensures NothingToSimplify(s) ==> r == s.(error := Some(MissingInput))
    ensures !NothingToSimplify(s) ==>
      r.loading && r.error.None? && r.output == ""
      && r == s.(loading := r.loading, error := r.error, output := r.output)
  {
    if NothingToSimplify(s) then s.(error := Some(MissingInput))
    else s.(loading := true, error := None, output := "")
  }

  /** The `try`/`catch`/`finally` after `simplifyText` settles: the result
      becomes the output, or the thrown message (or the generic one for an
      empty message) becomes the error; loading ends either way. */
  function FinishSimplify(s: State, result: Result<string>): (r: State)
    ensures !r.loading
    ensures result.Success? ==> r.output == result.value && r.error == s.error
    ensures result.Failure? ==>
      r.output == s.output && r.error == Some(if result.error == "" then SomethingWrong else result.error)
    ensures r.input == s.input && r.attachment == s.attachment
      && r.speaking == s.speaking && r.options == s.options
  {
    match result
    case Success(v) => s.(output := v, loading := false)
    case Failure(m) => s.(error := Some(if m == "" then SomethingWrong else m), loading := false)
  }

  /** `handleSimplify` run to completion against the reply `reply`. */
  function HandleSimplify(s: State, reply: GenerateReply): (r: State)
    ensures NothingToSimplify(s) ==> r == s.(error := Some(MissingInput))
    ensures !NothingToSimplify(s) ==>
      && !r.loading
      && r.input == s.input && r.attachment == s.attachment
      && r.speaking == s.speaking && r.options == s.options
      && (reply.Responded? ==> r.output == ReplyText(reply.text) && r.error.None?)
      && (reply.Threw? ==> r.output == "" && r.error == Some(SimplifyFailed))
  {
    var started := BeginSimplify(s);
    if NothingToSimplify(s) then started
    else
      TrimEmptyIffBlank(s.input);
      FinishSimplify(started, SimplifyText(s.input, s.attachment, s.options, reply))
  }

  /** A completed simplification leaves exactly one of a non-empty output and
      an error, and the generic "Something went wrong." never appears because
      `simplifyText` always throws with its own message. */
  lemma SimplifyOutcomeExclusive(s: State, reply: GenerateReply)
    requires !NothingToSimplify(s)
    ensures var r := HandleSimplify(s, reply);
      && (r.output != "" <==> r.error.None?)
      && r.error != Some(SomethingWrong)
  {
    ReplyTextIdempotent(if reply.Responded? then reply.text else None);
  }

  /** The start of `handleSpeak`: nothing for empty output, else the speaking flag. */
  function BeginSpeak(s: State): (r: State)
    ensures s.output == "" ==> r == s
    ensures s.output != "" ==> r == s.(speaking := true)
  {
    if s.output == "" then s else s.(speaking := true)
  }

  /** The `finally` of `handleSpeak`. */
  function FinishSpeak(s: State): (r: State)
    ensures !r.speaking && r == s.(speaking := false)
  {
    s.(speaking := false)
  }

  /** The state after `handleSpeak` and the buffer it played, if any. */
  datatype SpeakOutcome = SpeakOutcome(state: State, played: Option<AudioBuffer>)

  /** `handleSpeak` run to completion: the output is read aloud when there is
      one; the speaking flag is down afterwards whatever the outcome, and a
      failure is swallowed without touching the error or the output. */
  function HandleSpeak(s: State, reply: SpeechReply, atob: string -> Option<seq<Byte>>): (r: SpeakOutcome)
    ensures s.output == "" ==> r == SpeakOutcome(s, None)
    ensures s.output != "" ==> r.state == s.(speaking := false)
    ensures r.played.Some? <==> s.output != "" && SpeakText(reply, atob).Success?
    ensures r.played.Some? ==> r.played.value == SpeakText(reply, atob).value
  {
    if s.output == "" then SpeakOutcome(s, None)
    else
      var during := BeginSpeak(s);
      var played := match SpeakText(reply, atob)
        case Success(buffer) => Some(buffer)
        case Failure(_) => None;
      SpeakOutcome(FinishSpeak(during), played)
  }

  /** A failed reading leaves everything the user sees except the flag as it was. */
  lemma SpeechFailureKeepsErrorAndOutput(s: State, reply: SpeechReply, atob: string -> Option<seq<Byte>>)
    requires SpeakText(reply, atob).Failure?
    ensures HandleSpeak(s, reply, atob).state.error == s.error
    ensures HandleSpeak(s, reply, atob).state.output == s.output
    ensures HandleSpeak(s, reply, atob).played.None?
  {
  }

  /** What the user or a settling promise can do. */
  datatype Event =
    | Edit(text: string)
    | PickFile(file: Option<PickedFile>, dataUrl: Option<string>)
    | ClearAll
    | RemoveFile
    | ChangeOption(change: Change)
    | ClickSimplify
    | SimplifySettled(result: Result<string>)
    | ClickReadAloud
    | SpeechSettled

  /** Whether the event can happen now. Every input control is disabled while
      loading; Clear All and the remove button exist only when rendered; a
      promise settles only while its flag is up. */
  predicate Enabled(s: State, e: Event) {
    match e
    case Edit(_) => !s.loading
    case PickFile(_, _) => !s.loading
    case ClearAll => !s.loading && ClearAllShown(s.input, s.attachment)
    case RemoveFile => !s.loading && s.attachment.Some?
    case ChangeOption(_) => !s.loading
    case ClickSimplify => SimplifyEnabled(s)
    case SimplifySettled(_) => s.loading
    case ClickReadAloud => ReadAloudEnabled(s.output, s.loading, s.speaking)
    case SpeechSettled => s.speaking
  }

  /** The state after the event. */
  function Step(s: State, e: Event): State {
    match e
    case Edit(t) => s.(input := t)
    case PickFile(f, url) =>
      (match HandleFileChange(f, url)
       case Attached(a) => s.(attachment := Some(a))
       case _ => s)
    case ClearAll => s.(input := "", attachment := None)
    case RemoveFile => s.(attachment := None)
    case ChangeOption(c) => s.(options := Apply(s.options, c))
    case ClickSimplify => BeginSimplify(s)
    case SimplifySettled(r) => FinishSimplify(s, r)
    case ClickReadAloud => BeginSpeak(s)
    case SpeechSettled => FinishSpeak(s)
  }

  /** What holds in every reachable state: while a simplification is in
      flight the output and error are clear and there is still something
      to simplify (non-blank text or an attached file). */
  predicate Inv(s: State) {
    s.loading ==> s.output == "" && s.error.None? && !NothingToSimplify(s)
  }

  lemma InitialInv()
    ensures Inv(Initial) && !Initial.loading && !Initial.speaking
    ensures Initial.options == Options(HighSchool, false, true)
    ensures !SimplifyEnabled(Initial)
  {
    assert Blank(Initial.input);
  }

  lemma StepInv(s: State, e: Event)
    requires Inv(s) && Enabled(s, e)
    ensures Inv(Step(s, e))
  {
  }

  /** Clear All empties the text and drops the attachment, after which the
      control disappears and Simplify is disabled. */
  lemma ClearAllEmpties(s: State)
    ensures Step(s, ClearAll).input == "" && Step(s, ClearAll).attachment.None?
    ensures !ClearAllShown(Step(s, ClearAll).input, Step(s, ClearAll).attachment)
    ensures !SimplifyEnabled(Step(s, ClearAll))
  {
    var r := Step(s, ClearAll);
    assert r.input == "" && Blank(r.input);
  }

  /** Removing the file keeps the text and everything else. */
  lemma RemoveFileKeepsText(s: State)
    ensures Step(s, RemoveFile) == s.(attachment := None)
  {
  }

  /** Picking a file changes only the attachment, and only when the file was
      small enough and its read produced a data URL. */
  lemma PickFileAttachesOnlyOnRead(s: State, file: Option<PickedFile>, dataUrl: Option<string>)
    ensures HandleFileChange(file, dataUrl).Attached? ==>
      Step(s, PickFile(file, dataUrl)) == s.(attachment := Some(HandleFileChange(file, dataUrl).attachment))
    ensures !HandleFileChange(file, dataUrl).Attached? ==> Step(s, PickFile(file, dataUrl)) == s
  {
  }

  /** Neither action can be started twice: a click that starts one disables
      its own button until the matching promise settles. */
  lemma NoDoubleStart(s: State)
    ensures Enabled(s, ClickSimplify) ==> !SimplifyEnabled(Step(s, ClickSimplify))
    ensures Enabled(s, ClickReadAloud) ==>
      var r := Step(s, ClickReadAloud); r.speaking && !ReadAloudEnabled(r.output, r.loading, r.speaking)
  {
  }

  /** Run the events in order; `None` once one of them is not enabled. */
  function Run(s: State, events: seq<Event>): Option<State>
    decreases |events|
  {
    if events == [] then Some(s)
    else if !Enabled(s, events[0]) then None
    else Run(Step(s, events[0]), events[1..])
  }

  /** Every state reachable from the initial page satisfies the invariant. */
  lemma {:induction false} RunInv(s: State, events: seq<Event>)
    requires Inv(s)
    ensures Run(s, events).Some? ==> Inv(Run(s, events).value)
    decreases |events|
  {
    if events != [] && Enabled(s, events[0]) {
      StepInv(s, events[0]);
      RunInv(Step(s, events[0]), events[1..]);
    }
  }

  lemma ReachableInv(events: seq<Event>)
    ensures Run(Initial, events).Some? ==> Inv(Run(Initial, events).value)
  {
    assert !Initial.loading;
    RunInv(Initial, events);
  }

  /** Clicking Simplify and letting the call settle with `result` is the
      start of the handler followed by its finish. */
  lemma SettleAfterClick(s: State, result: Result<string>)
    requires SimplifyEnabled(s)
    ensures Enabled(Step(s, ClickSimplify), SimplifySettled(result))
    ensures Step(Step(s, ClickSimplify), SimplifySettled(result)) == FinishSimplify(BeginSimplify(s), result)
  {
  }

  /** The event-level simplification agrees with the atomic handler: clicking
      Simplify and letting the call settle with `simplifyText`'s result gives
      the state `handleSimplify` ends in. */
  lemma ClickThenSettle(s: State, reply: GenerateReply)
    requires SimplifyEnabled(s)
    ensures var result := SimplifyText(s.input, s.attachment, s.options, reply);
      && Enabled(Step(s, ClickSimplify), SimplifySettled(result))
      && Step(Step(s, ClickSimplify), SimplifySettled(result)) == HandleSimplify(s, reply)
  {
    var result := SimplifyText(s.input, s.attachment, s.options, reply);
    SettleAfterClick(s, result);
  }
}
