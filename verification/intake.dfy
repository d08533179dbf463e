/** The language-and-name intake screen of `LanguageScreen.js`: a choice of
    language, then a name field with a back arrow; continuing with a name
    that is not blank stores the trimmed name and hands the configuration
    to the application.

    `stored` is the browser's saved name (the one local-storage entry the
    screen reads and writes). Events that the current step does not render
    a control for are ignored. */
module Intake {
  import opened Wrappers
  import opened Text

  /** The key of the saved name in local storage. */
  const StorageKey: string := "buropa_user_name"

  /** An offered language: its code and the source's `label`, the text on
      its button (`label` is a reserved word here, hence `name`). */
  datatype Language = Language(code: string, name: string)

  /** The languages offered, in the order shown. */
  const Languages: seq<Language> := [
    Language("en", "English"),
    Language("ar", "العربية"),
    Language("fr", "Français")
  ]

  /** The code is one of the offered languages'. */
  predicate Offered(code: string) {
    exists i :: 0 <= i < |Languages| && Languages[i].code == code
  }

  datatype Stage = ChooseLanguage | EnterName

  datatype State = State(step: Stage, selectedLang: string, userName: string, stored: Option<string>)

  /** What the screen hands to the application on completion. */
  datatype UserConfig = UserConfig(lang: string, name: string)

  /** What happens to a mounted screen. The mount effect runs once, as part
      of mounting (`Mounted`), so it is not an event. */
  datatype Event =
    | Select(code: string) // a language button
    | Edit(text: string)   // typing in the name field
    | KeyPress(key: string)
    | Continue            // the continue button
    | Back                // the back arrow

  datatype Outcome = Outcome(state: State, emitted: Option<UserConfig>)

  /** A freshly mounted screen, before its mount effect: English selected,
      no name typed. */
  function Initial(stored: Option<string>): State {
    State(ChooseLanguage, "en", "", stored)
  }

  /** The mount effect: a saved name that is not empty pre-fills the field. */
  function OnMount(s: State): (r: State)
    ensures r.step == s.step && r.selectedLang == s.selectedLang && r.stored == s.stored
    ensures s.stored.Some? && s.stored.value != "" ==> r.userName == s.stored.value
    ensures s.stored.None? || s.stored.value == "" ==> r.userName == s.userName
  {
    match s.stored
    case Some(saved) => if saved != "" then s.(userName := saved) else s
    case None => s
  }

  /** The screen as it stands once mounted with the given storage. */
  function Mounted(stored: Option<string>): State {
    OnMount(Initial(stored))
  }

  /** `langs.find(l => l.code === code)?.label`: the label of the first
      language with that code. */
  function Find(langs: seq<Language>, code: string): (r: Option<string>)
    ensures r.Some? <==> exists i :: 0 <= i < |langs| && langs[i].code == code
    ensures r.Some? ==> exists i :: 0 <= i < |langs| && langs[i] == Language(code, r.value)
                                    && forall j :: 0 <= j < i ==> langs[j].code != code
  {
    if |langs| == 0 then None
    else if langs[0].code == code then Some(langs[0].name)
    else
      var r := Find(langs[1..], code);
      assert forall i :: 0 < i < |langs| ==> langs[i] == langs[1..][i - 1];
      r
  }

  /** The label shown for the selected language on the name step: present
      exactly for an offered code. */
  function LabelOf(code: string): (r: Option<string>)
    ensures r.Some? <==> Offered(code)
    ensures r.Some? ==> exists i :: 0 <= i < |Languages| && Languages[i] == Language(code, r.value)
  {
    Find(Languages, code)
  }

  /** `handleLanguageSelect`. */
  function SelectLanguage(s: State, code: string): (r: State)
    ensures r.step == EnterName && r.selectedLang == code
    ensures r.userName == s.userName && r.stored == s.stored
  {
    s.(selectedLang := code, step := EnterName)
  }

  /** `handleBack`. */
  function GoBack(s: State): (r: State)
    ensures r.step == ChooseLanguage
    ensures r.selectedLang == s.selectedLang && r.userName == s.userName && r.stored == s.stored
  {
    s.(step := ChooseLanguage)
  }

  /** The continue button is disabled exactly when the name is blank. */
  predicate ContinueDisabled(s: State) {
    Trim(s.userName) == ""
  }

  /** `handleContinue`: with a blank name nothing happens; otherwise the
      trimmed name is saved and emitted together with the selected language,
      so that the saved name and the emitted name agree. */
  function HandleContinue(s: State): (r: Outcome)
    ensures r.emitted.Some? <==> !IsBlank(s.userName)
    ensures r.emitted.None? ==> r.state == s
    ensures r.emitted.Some? ==>
      && r.emitted.value.lang == s.selectedLang
      && r.emitted.value.name == Trim(s.userName)
      && r.emitted.value.name != "" && Trimmed(r.emitted.value.name)
      && r.state == s.(stored := Some(r.emitted.value.name))
  {
    var name := Trim(s.userName);
    if name != "" then
      Outcome(s.(stored := Some(name)), Some(UserConfig(s.selectedLang, name)))
    else
      Outcome(s, None)
  }

  /** The current step renders the control the event comes from: the
      language buttons on the first step, the name field, the back arrow
      and the continue button on the second. */
  predicate HasControl(s: State, e: Event) {
    if e.Select? then s.step == ChooseLanguage else s.step == EnterName
  }

  /** One event. Language buttons exist only on the first step; the name
      field, the back arrow and the continue button only on the second.
      Enter in the name field continues; other keys do nothing. */
  function Step(s: State, e: Event): (r: Outcome)
    ensures r.emitted.Some? ==> s.step == EnterName && (e == Continue || e == KeyPress("Enter"))
    ensures r.emitted.Some? ==> r == HandleContinue(s)
    ensures r.state.stored != s.stored ==> r.emitted.Some?
    ensures e.Select? && s.step == ChooseLanguage ==> r == Outcome(SelectLanguage(s, e.code), None)
    ensures e.Edit? && s.step == EnterName ==> r == Outcome(s.(userName := e.text), None)
    ensures e == Back && s.step == EnterName ==> r == Outcome(GoBack(s), None)
    ensures !HasControl(s, e) ==> r == Outcome(s, None)
    ensures e.KeyPress? && e.key != "Enter" ==> r == Outcome(s, None)
  {
    match e
    case Select(code) =>
      if s.step == ChooseLanguage then Outcome(SelectLanguage(s, code), None) else Outcome(s, None)
    case Edit(text) =>
      if s.step == EnterName then Outcome(s.(userName := text), None) else Outcome(s, None)
    case KeyPress(key) =>
      if s.step == EnterName && key == "Enter" then HandleContinue(s) else Outcome(s, None)
    case Continue =>
      if s.step == EnterName then HandleContinue(s) else Outcome(s, None)
    case Back =>
      if s.step == EnterName then Outcome(GoBack(s), None) else Outcome(s, None)
  }

  /** The state after each event in turn. What the screen emits is not looked
      at: the application replaces the screen at its first emission, so a
      run describes the application only up to that point. */
  function Run(s: State, events: seq<Event>): State
    decreases |events|
  {
    if |events| == 0 then s else Run(Step(s, events[0]).state, events[1..])
  }

  // ----- properties -----

  /** Mounting starts on the language step with English selected, and the
      name field holds the saved name when there is a non-empty one. */
  lemma MountedState(stored: Option<string>)
    ensures Mounted(stored).step == ChooseLanguage && Mounted(stored).selectedLang == "en"
    ensures Mounted(stored).stored == stored
    ensures Mounted(stored).userName == if stored.Some? then stored.value else ""
  {
  }

  /** The offered codes are exactly `en`, `ar` and `fr`, and each has its
      label to show. */
  lemma OfferedCodes(code: string)
    ensures Offered(code) <==> code in {"en", "ar", "fr"}
    ensures LabelOf(code).Some? <==> code in {"en", "ar", "fr"}
  {
    if code in {"en", "ar", "fr"} {
      var i := if code == "en" then 0 else if code == "ar" then 1 else 2;
      assert Languages[i].code == code;
    }
  }

  /** Continuing is possible exactly when the button is enabled, and the
      button is disabled exactly for a whitespace-only name. */
  lemma ContinueIffEnabled(s: State)
    requires s.step == EnterName
    ensures Step(s, Continue).emitted.Some? <==> !ContinueDisabled(s)
    ensures ContinueDisabled(s) <==> IsBlank(s.userName)
    ensures ContinueDisabled(s) ==> Step(s, Continue) == Outcome(s, None)
  {
  }

  /** Pressing Enter in the field is the same transition as the button. */
  lemma EnterIsContinue(s: State)
    ensures Step(s, KeyPress("Enter")) == Step(s, Continue)
  {
  }

  /** Back from the name step and choosing the same language again returns
      to exactly the same state: back loses neither language nor name. */
  lemma BackThenReselect(s: State)
    requires s.step == EnterName
    ensures Step(Step(s, Back).state, Select(s.selectedLang)) == Outcome(s, None)
  {
  }

  /** Surrounding white space never reaches the saved or emitted name. */
  lemma PaddedNameIsTrimmed(s: State, a: string, name: string, b: string)
    requires s.step == EnterName && s.userName == a + name + b
    requires IsBlank(a) && IsBlank(b) && Trimmed(name) && name != ""
    ensures Step(s, Continue).emitted == Some(UserConfig(s.selectedLang, name))
    ensures Step(s, Continue).state.stored == Some(name)
  {
    TrimPadded(a, name, b);
  }

  /** When every language chosen along the way is an offered one, the
      selected language stays an offered one. */
  lemma {:induction false} SelectionStaysOffered(s: State, events: seq<Event>)
    requires Offered(s.selectedLang)
    requires forall i :: 0 <= i < |events| && events[i].Select? ==> Offered(events[i].code)
    ensures Offered(Run(s, events).selectedLang)
    decreases |events|
  {
    if |events| > 0 {
      var next := Step(s, events[0]).state;
      assert Offered(next.selectedLang) by {
        if events[0].Select? && s.step == ChooseLanguage {
          assert next.selectedLang == events[0].code;
        } else {
          assert next.selectedLang == s.selectedLang;
        }
      }
      forall i | 0 <= i < |events[1..]| && events[1..][i].Select?
        ensures Offered(events[1..][i].code)
      {
        assert events[1..][i] == events[i + 1];
      }
      SelectionStaysOffered(next, events[1..]);
    }
  }

  /** Only continuing writes the storage: a run with neither the continue
      button nor the Enter key leaves the saved name as it was. */
  lemma {:induction false} SilentRunKeepsStorage(s: State, events: seq<Event>)
    requires forall i :: 0 <= i < |events| ==> events[i] != Continue && events[i] != KeyPress("Enter")
    ensures Run(s, events).stored == s.stored
    decreases |events|
  {
    if |events| > 0 {
      assert events[0] != Continue && events[0] != KeyPress("Enter");
      forall i | 0 <= i < |events[1..]|
        ensures events[1..][i] != Continue && events[1..][i] != KeyPress("Enter")
      {
        assert events[1..][i] == events[i + 1];
      }
      SilentRunKeepsStorage(Step(s, events[0]).state, events[1..]);
    }
  }
}
