/** The top-level controller of `App.js`: with no user configuration the
    intake screen is shown; the intake screen's completion sets the
    configuration and shows the voice screen; the voice screen's back
    arrow clears it again, which mounts a fresh intake screen.

    Local storage outlives both screens, so the voice screen carries it
    while it is shown. */
module App {
  import opened Wrappers
  import opened Text
  import Intake
  import Voice

  datatype AppState =
    | Choosing(intake: Intake.State)
    | Talking(config: Intake.UserConfig, voice: Voice.State, stored: Option<string>)

  datatype AppEvent =
    | IntakeEvent(e: Intake.Event)
    | VoiceEvent(v: Voice.Event)
    | VoiceBack

  /** The configuration the controller holds: `null` while choosing. */
  function ConfigOf(a: AppState): Option<Intake.UserConfig> {
    match a
    case Choosing(_) => None
    case Talking(config, _, _) => Some(config)
  }

  /** The browser's saved name, whichever screen is shown. */
  function Stored(a: AppState): Option<string> {
    match a
    case Choosing(intake) => intake.stored
    case Talking(_, _, stored) => stored
  }

  /** The application as it starts: the intake screen, mounted. */
  function Start(stored: Option<string>): AppState {
    Choosing(Intake.Mounted(stored))
  }

  /** What holds of every state the application reaches: while the voice
      screen is shown, its configuration's name is a trimmed, non-empty
      name, and it is the name saved in the browser. */
  predicate Inv(a: AppState) {
    a.Talking? ==> a.stored == Some(a.config.name) && a.config.name != "" && Trimmed(a.config.name)
  }

  /** The voice screen's `lang` and `user.name` props: the configured
      language, and a trimmed, non-empty name that is the saved one. */
  function VoiceProps(a: AppState): (props: (string, string))
    requires a.Talking? && Inv(a)
    ensures props == (ConfigOf(a).value.lang, ConfigOf(a).value.name)
    ensures props.1 != "" && Trimmed(props.1) && Stored(a) == Some(props.1)
  {
    (a.config.lang, a.config.name)
  }

  /** One event, delivered to the screen that is shown; an event for the
      other screen is ignored. */
  function Step(a: AppState, ev: AppEvent): (r: AppState)
    ensures Stored(r) == Stored(a) || (a.Choosing? && r.Talking? && Stored(r) == Some(r.config.name))
    ensures a.Talking? && ev == VoiceBack ==> r == Start(Stored(a))
  {
    match (a, ev)
    case (Choosing(intake), IntakeEvent(e)) =>
      var out := Intake.Step(intake, e);
      if out.emitted.Some? then Talking(out.emitted.value, Voice.Initial, out.state.stored)
      else Choosing(out.state)
    case (Talking(config, voice, stored), VoiceEvent(v)) =>
      Talking(config, Voice.Step(voice, v), stored)
    case (Talking(_, _, stored), VoiceBack) =>
      Start(stored)
    case _ => a
  }

  /** The state after each event in turn. */
  function Run(a: AppState, events: seq<AppEvent>): AppState
    decreases |events|
  {
    if |events| == 0 then a else Run(Step(a, events[0]), events[1..])
  }

  // ----- properties -----

  /** The application starts in a state of the invariant. */
  lemma StartInv(stored: Option<string>)
    ensures Inv(Start(stored))
  {
  }

  /** Every event keeps the invariant: the intake screen completes only with
      a trimmed, non-empty name that it has just saved, and the voice screen
      touches neither the configuration nor the storage. */
  lemma StepKeepsInv(a: AppState, ev: AppEvent)
    requires Inv(a)
    ensures Inv(Step(a, ev))
  {
  }

  /** Every state reached from the start satisfies the invariant. */
  lemma {:induction false} RunKeepsInv(stored: Option<string>, events: seq<AppEvent>)
    ensures Inv(Run(Start(stored), events))
  {
    StartInv(stored);
    InvAlongRun(Start(stored), events);
  }

  lemma {:induction false} InvAlongRun(a: AppState, events: seq<AppEvent>)
    requires Inv(a)
    ensures Inv(Run(a, events))
    decreases |events|
  {
    if |events| > 0 {
      StepKeepsInv(a, events[0]);
      InvAlongRun(Step(a, events[0]), events[1..]);
    }
  }

  /** With no configuration the intake screen is shown. */
  lemma StartsChoosing(stored: Option<string>)
    ensures ConfigOf(Start(stored)).None? && Start(stored).Choosing?
  {
  }

  /** The intake screen's completion stores exactly the emitted
      configuration; the voice screen then opens fresh and receives the
      configuration's language and name unchanged. */
  lemma SelectShowsVoice(intake: Intake.State, e: Intake.Event)
    requires Intake.Step(intake, e).emitted.Some?
    ensures var r := Step(Choosing(intake), IntakeEvent(e));
      && r.Talking?
      && ConfigOf(r) == Intake.Step(intake, e).emitted
      && r.voice == Voice.Initial
      && VoiceProps(r) == (intake.selectedLang, Trim(intake.userName))
  {
  }

  /** Back from the voice screen clears the configuration and shows a
      freshly mounted intake screen, whose name field holds the name that
      was confirmed. */
  lemma BackClearsConfig(config: Intake.UserConfig, voice: Voice.State, stored: Option<string>)
    requires Inv(Talking(config, voice, stored))
    ensures var r := Step(Talking(config, voice, stored), VoiceBack);
      && ConfigOf(r).None? && r.Choosing?
      && r.intake.step == Intake.ChooseLanguage && r.intake.selectedLang == "en"
      && r.intake.userName == config.name
  {
  }

  /** The whole round: choose a language, type a name with blanks around
      it, continue, then go back; the voice screen got the trimmed name and
      the intake screen comes back pre-filled with it. */
  lemma IntakeRoundTrip(stored: Option<string>, code: string, a: string, name: string, b: string)
    requires IsBlank(a) && IsBlank(b) && Trimmed(name) && name != ""
    ensures var s1 := Step(Start(stored), IntakeEvent(Intake.Select(code)));
      var s2 := Step(s1, IntakeEvent(Intake.Edit(a + name + b)));
      var s3 := Step(s2, IntakeEvent(Intake.Continue));
      var s4 := Step(s3, VoiceBack);
      && s3 == Talking(Intake.UserConfig(code, name), Voice.Initial, Some(name))
      && s4.Choosing? && s4.intake.userName == name
  {
    var s1 := Step(Start(stored), IntakeEvent(Intake.Select(code)));
    assert s1 == Choosing(Intake.State(Intake.EnterName, code, Intake.Mounted(stored).userName, stored));
    var s2 := Step(s1, IntakeEvent(Intake.Edit(a + name + b)));
    assert s2 == Choosing(Intake.State(Intake.EnterName, code, a + name + b, stored));
    Intake.PaddedNameIsTrimmed(s2.intake, a, name, b);
  }
}
