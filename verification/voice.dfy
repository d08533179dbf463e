/** The voice screen of `VoiceScreen.js`: the greeting, the microphone
    toggle, the error raised when the microphone cannot be opened, and the
    per-frame loop that feeds the meter while the screen is listening.

    Each run of the listening effect is a session with a fresh number;
    `mounted` holds the number of the one session whose cleanup has not yet
    run (the source's `mounted` flag, one per effect run). The microphone
    and audio graph are outside the model: their outcomes arrive as events
    that name the session they belong to. */
module Voice {
  import opened Wrappers
  import I18n
  import Meter

  // ----- greeting and layout -----

  /** A greeting template: the text before and after the user's name. */
  datatype Template = Template(before: string, after: string)

  const Greetings: map<string, Template> := map[
    "fr" := Template("Bonjour ", ", je suis là pour vous aider. Comment puis-je vous aider aujourd'hui ?"),
    "en" := Template("Hello ", ", I'm here to help you. How can I assist you today?"),
    "ar" := Template("مرحباً ", "، أنا هنا لمساعدتك. كيف يمكنني مساعدتك اليوم؟")
  ]

  /** The template used for a language: its own, else English's. */
  function TemplateFor(lang: string): Template {
    if lang in Greetings then Greetings[lang] else Greetings["en"]
  }

  /** The greeting shown under the circle, with the name put in verbatim:
      it opens with the language's salutation and the name can be read
      back out of it. */
  function Greeting(lang: string, name: string): (g: string)
    ensures TemplateFor(lang).before <= g
    ensures NameIn(lang, g) == name
  {
    var t := TemplateFor(lang);
    var g := t.before + name + t.after;
    assert g[|t.before|..|g| - |t.after|] == name;
    g
  }

  /** The name inside a greeting: what lies between the template's parts. */
  function NameIn(lang: string, greeting: string): string {
    var t := TemplateFor(lang);
    if |t.before| + |t.after| <= |greeting| then greeting[|t.before|..|greeting| - |t.after|] else ""
  }

  /** Since the name can be read back out of the greeting, distinct names
      give distinct greetings. */
  lemma GreetingInjective(lang: string, a: string, b: string)
    requires Greeting(lang, a) == Greeting(lang, b)
    ensures a == b
  {
    assert a == NameIn(lang, Greeting(lang, a));
  }

  /** The greeting languages are the supported ones; any other language is
      greeted in English. */
  lemma UnknownLanguageGreetsInEnglish(lang: string, name: string)
    ensures Greetings.Keys == I18n.Supported
    ensures lang !in I18n.Supported ==> Greeting(lang, name) == Greeting("en", name)
  {
  }

  /** A supported language's greeting opens with its own salutation and
      closes with its own offer of help, around the name. */
  lemma GreetingFramesName(lang: string, name: string)
    requires lang in I18n.Supported
    ensures Greetings[lang].before <= Greeting(lang, name)
    ensures Greeting(lang, name)[|Greetings[lang].before| + |name|..] == Greetings[lang].after
  {
    var t := Greetings[lang];
    assert Greeting(lang, name) == t.before + name + t.after;
    assert (t.before + name + t.after)[|t.before| + |name|..] == t.after;
  }

  datatype Direction = LeftToRight | RightToLeft

  /** The greeting runs right to left (and is right-aligned) only for Arabic. */
  function TextDirection(lang: string): (d: Direction)
    ensures d == RightToLeft <==> lang == "ar"
  {
    if lang == "ar" then RightToLeft else LeftToRight
  }

  /** The layout follows the greeting: it is right to left exactly when the
      greeting shown is the Arabic one, and every other greeting (an
      unknown language's English one included) is laid out left to right. */
  lemma RightToLeftIffArabicGreeting(lang: string)
    ensures TextDirection(lang) == RightToLeft <==> TemplateFor(lang) == Greetings["ar"]
  {
    assert Greetings["ar"].before[0] != Greetings["fr"].before[0];
    assert Greetings["ar"].before[0] != Greetings["en"].before[0];
  }

  // ----- errors and status -----

  /** The message key for a failure to open the microphone: a refused
      permission, or any other failure. */
  function ErrorKey(errorName: string): (key: string)
    ensures key in I18n.Keys
    ensures key == "micPermissionError" <==> errorName == "NotAllowedError"
    ensures key != "micPermissionError" ==> key == "micNotSupported"
  {
    if errorName == "NotAllowedError" then "micPermissionError" else "micNotSupported"
  }

  /** The key of the status line under the button. */
  function StatusKey(listening: bool): (key: string)
    ensures key in I18n.Keys
    ensures key == "listening" <==> listening
    ensures !listening ==> key == "notListening"
  {
    if listening then "listening" else "notListening"
  }

  /** The status line: "listening" or "not listening" in the screen's
      language. */
  function StatusText(lang: string, listening: bool): string {
    I18n.GetText(lang, StatusKey(listening))
  }

  /** A supported language reads its status line and error messages in its
      own words. */
  lemma MessagesInOwnLanguage(lang: string, listening: bool, errorName: string)
    requires lang in I18n.Supported
    ensures StatusText(lang, listening) == I18n.Translations[lang][StatusKey(listening)]
    ensures I18n.GetText(lang, ErrorKey(errorName)) == I18n.Translations[lang][ErrorKey(errorName)]
  {
  }

  // ----- the screen's state -----

  datatype State = State(
    listening: bool,
    level: real,            // the square of the rendered volume
    error: Option<string>,  // a message key
    mounted: Option<nat>,   // the session whose cleanup has not run
    nextSession: nat)

  /** The screen as it first renders: not listening, volume 0.2, no error. */
  const Initial: State := State(false, 0.04, None, None, 0)

  datatype Event =
    | MicPressed                                           // the round button
    | StartSucceeded(session: nat, first: Meter.Window)    // microphone open; the first tick's read
    | StartFailed(session: nat, errorName: string)         // the catch block
    | Frame(session: nat, samples: Meter.Window)           // a later animation-frame tick

  /** The two fields stay in step: the screen listens exactly while one
      session is mounted, and session numbers are handed out in order. */
  predicate Valid(s: State) {
    && (s.listening <==> s.mounted.Some?)
    && (s.mounted.Some? ==> s.mounted.value < s.nextSession)
  }

  /** `setListening(v)`: when the value changes, the previous effect run's
      cleanup ends its session, and turning on starts a new one. */
  function SetListening(s: State, v: bool): (r: State)
    ensures Valid(s) ==> Valid(r)
    ensures r.listening == v
    ensures r.level == s.level && r.error == s.error
    ensures v && !s.listening ==> r.mounted == Some(s.nextSession) && r.nextSession == s.nextSession + 1
    ensures !v && s.listening ==> r.mounted == None && r.nextSession == s.nextSession
    ensures v == s.listening ==> r == s
  {
    if s.listening == v then s
    else if v then s.(listening := true, mounted := Some(s.nextSession), nextSession := s.nextSession + 1)
    else s.(listening := false, mounted := None)
  }

  /** What one call of `tick` does: a torn-down session returns at once;
      a mounted one reads the samples and reports a new level. */
  datatype TickResult = Returned | Measured(level: real)

  function Tick(s: State, session: nat, samples: Meter.Window): (r: TickResult)
    ensures r.Returned? <==> s.mounted != Some(session)
    ensures r.Measured? ==> r.level == Meter.WindowLevel(samples) && 0.0 <= r.level <= 1.0
  {
    if s.mounted != Some(session) then Returned else Measured(Meter.WindowLevel(samples))
  }

  function ApplyTick(s: State, t: TickResult): State {
    match t
    case Returned => s
    case Measured(level) => s.(level := level)
  }

  /** One event. */
  function Step(s: State, e: Event): (r: State)
    ensures Valid(s) ==> Valid(r)
    ensures r.nextSession >= s.nextSession
    ensures r.mounted.Some? && r.mounted != s.mounted ==>
              r.mounted == Some(s.nextSession) && r.nextSession == s.nextSession + 1
    ensures 0.0 <= s.level <= 1.0 ==> 0.0 <= r.level <= 1.0
  {
    match e
    case MicPressed => SetListening(s, !s.listening)
    case StartSucceeded(session, first) =>
      var cleared := s.(error := None);
      ApplyTick(cleared, Tick(cleared, session, first))
    case StartFailed(_, errorName) =>
      SetListening(s.(error := Some(ErrorKey(errorName))), false)
    case Frame(session, samples) =>
      ApplyTick(s, Tick(s, session, samples))
  }

  function Run(s: State, events: seq<Event>): (r: State)
    ensures Valid(s) ==> Valid(r)
    decreases |events|
  {
    if |events| == 0 then s else Run(Step(s, events[0]), events[1..])
  }

  // ----- properties -----

  lemma InitialValid()
    ensures Valid(Initial) && !Initial.listening && Initial.error.None?
    ensures 0.0 <= Initial.level <= 1.0
  {
  }

  /** The button flips `listening`. */
  lemma MicToggles(s: State)
    requires Valid(s)
    ensures Step(s, MicPressed).listening == !s.listening
    ensures Step(s, MicPressed).error == s.error
  {
  }

  /** A failure to open the microphone shows its message and stops
      listening: a refused permission asks for permission, anything else
      says the microphone is not supported. */
  lemma FailureStopsListening(s: State, session: nat, errorName: string)
    requires Valid(s)
    ensures var r := Step(s, StartFailed(session, errorName));
      && !r.listening && r.mounted.None?
      && r.error == Some(if errorName == "NotAllowedError" then "micPermissionError" else "micNotSupported")
  {
  }

  /** A successful start clears any earlier error, for a mounted session
      and a torn-down one alike. */
  lemma StartClearsError(s: State, session: nat, first: Meter.Window)
    requires Valid(s)
    ensures Step(s, StartSucceeded(session, first)).error.None?
    ensures Step(s, StartSucceeded(session, first)).listening == s.listening
  {
  }

  /** A frame of the mounted session moves the meter to that frame's level:
      a silent window (every sample at the mid-point) to 0 and a saturated
      one (every sample 0 or 255) to 1. */
  lemma FrameSetsLevel(s: State, session: nat, w: Meter.Window)
    requires s.mounted == Some(session)
    ensures Step(s, Frame(session, w)).level == Meter.WindowLevel(w)
    ensures (forall i :: 0 <= i < |w| ==> w[i] == 128) ==> Step(s, Frame(session, w)).level == 0.0
    ensures (forall i :: 0 <= i < |w| ==> w[i] == 0 || w[i] == 255) ==> Step(s, Frame(session, w)).level == 1.0
  {
    if forall i :: 0 <= i < |w| ==> w[i] == 128 {
      Meter.SilenceReadsZero(w);
    }
    if forall i :: 0 <= i < |w| ==> w[i] == 0 || w[i] == 255 {
      Meter.SaturatedReadsOne(w);
    }
  }

  /** The session's cleanup has run. */
  predicate TornDown(s: State, session: nat) {
    session < s.nextSession && s.mounted != Some(session)
  }

  /** A tick of a torn-down session changes nothing. */
  lemma TornDownTickIsInert(s: State, session: nat, samples: Meter.Window)
    requires Valid(s) && TornDown(s, session)
    ensures Tick(s, session, samples) == Returned
    ensures Step(s, Frame(session, samples)) == s
    ensures Step(s, StartSucceeded(session, samples)) == s.(error := None)
  {
  }

  /** A start that succeeds for the mounted session runs the first tick:
      the error is cleared and the meter shows the first read's level. */
  lemma LiveStartMeasures(s: State, session: nat, first: Meter.Window)
    requires s.mounted == Some(session)
    ensures Step(s, StartSucceeded(session, first)) == s.(error := None, level := Meter.WindowLevel(first))
  {
  }

  /** Once torn down, a session is never mounted again, whatever happens
      next: no later tick of it reads samples or moves the meter. */
  lemma {:induction false} TornDownStaysDown(s: State, session: nat, events: seq<Event>)
    requires Valid(s) && TornDown(s, session)
    ensures TornDown(Run(s, events), session)
    decreases |events|
  {
    if |events| > 0 {
      TornDownStepped(s, session, events[0]);
      TornDownStaysDown(Step(s, events[0]), session, events[1..]);
    }
  }

  lemma TornDownStepped(s: State, session: nat, e: Event)
    requires Valid(s) && TornDown(s, session)
    ensures TornDown(Step(s, e), session)
  {
  }

  /** Pressing the button while listening tears the running session down. */
  lemma StopTearsDown(s: State)
    requires Valid(s) && s.listening
    ensures TornDown(Step(s, MicPressed), s.mounted.value)
  {
  }

  /** The meter stays within [0, 1] along any run from the first render. */
  lemma {:induction false} LevelStaysClamped(s: State, events: seq<Event>)
    requires Valid(s) && 0.0 <= s.level <= 1.0
    ensures 0.0 <= Run(s, events).level <= 1.0
    decreases |events|
  {
    if |events| > 0 {
      LevelStaysClamped(Step(s, events[0]), events[1..]);
    }
  }

  /** The catch block has no `mounted` guard: a failure reported by a
      session that was already torn down still stops the session that is
      listening now and shows the error. */
  lemma StaleFailureStopsCurrentSession(s: State, stale: nat, errorName: string)
    requires Valid(s) && s.listening && TornDown(s, stale)
    ensures !Step(s, StartFailed(stale, errorName)).listening
    ensures TornDown(Step(s, StartFailed(stale, errorName)), s.mounted.value)
  {
  }
}
