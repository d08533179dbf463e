/** The localisation tables of `i18n.js` and `getText`, which looks a key up
    in the requested language, then in English, then gives the key back. */
module I18n {
  import opened Wrappers

  /** Language code to (key to display string). */
  type Table = map<string, map<string, string>>

  const Supported: set<string> := {"fr", "en", "ar"}

  const Keys: set<string> := {
    "selectLanguage", "enterName", "namePlaceholder", "continue", "back",
    "microphone", "listening", "notListening", "micPermissionError", "micNotSupported"
  }

  const French: map<string, string> := map[
    "selectLanguage" := "Sélectionner la langue",
    "enterName" := "Entrez votre nom",
    "namePlaceholder" := "Votre nom",
    "continue" := "Continuer",
    "back" := "Retour",
    "microphone" := "Microphone",
    "listening" := "Écoute en cours...",
    "notListening" := "Cliquez pour écouter",
    "micPermissionError" := "Autorisation microphone requise",
    "micNotSupported" := "Microphone non supporté"
  ]

  const English: map<string, string> := map[
    "selectLanguage" := "Select language",
    "enterName" := "Enter your name",
    "namePlaceholder" := "Your name",
    "continue" := "Continue",
    "back" := "Back",
    "microphone" := "Microphone",
    "listening" := "Listening...",
    "notListening" := "Click to listen",
    "micPermissionError" := "Microphone permission required",
    "micNotSupported" := "Microphone not supported"
  ]

  const Arabic: map<string, string> := map[
    "selectLanguage" := "اختر اللغة",
    "enterName" := "أدخل اسمك",
    "namePlaceholder" := "اسمك",
    "continue" := "متابعة",
    "back" := "رجوع",
    "microphone" := "ميكروفون",
    "listening" := "أستمع...",
    "notListening" := "انقر للاستماع",
    "micPermissionError" := "إذن الميكروفون مطلوب",
    "micNotSupported" := "الميكروفون غير مدعوم"
  ]

  const Translations: Table := map["fr" := French, "en" := English, "ar" := Arabic]

  /** `t[lang]?.[key]`: the entry, or `None` for `undefined`. */
  function Entry(t: Table, lang: string, key: string): Option<string> {
    if lang in t && key in t[lang] then Some(t[lang][key]) else None
  }

  /** JavaScript's `a || b` on a possibly undefined string: `a` unless it is
      undefined or empty. */
  function OrElse(a: Option<string>, b: string): string {
    if a.Some? && a.value != "" then a.value else b
  }

  /** The language has a non-empty string for the key. */
  predicate HasText(t: Table, lang: string, key: string) {
    lang in t && key in t[lang] && t[lang][key] != ""
  }

  /** The three-level fall-back: the requested language's string when it
      has a non-empty one, else English's when that is non-empty, else the
      key itself. */
  function Lookup(t: Table, lang: string, key: string): (r: string)
    ensures HasText(t, lang, key) ==> r == t[lang][key]
    ensures !HasText(t, lang, key) && HasText(t, "en", key) ==> r == t["en"][key]
    ensures !HasText(t, lang, key) && !HasText(t, "en", key) ==> r == key
  {
    OrElse(Entry(t, lang, key), OrElse(Entry(t, "en", key), key))
  }

  /** `getText(lang, key)` over the application's tables: a defined key is
      always translated, into the requested language when it is supported
      and into English otherwise; any other key is shown as itself. */
  function GetText(lang: string, key: string): (r: string)
    ensures key in Keys && lang in Supported ==> r == Translations[lang][key]
    ensures key in Keys && lang !in Supported ==> r == Translations["en"][key]
    ensures key !in Keys ==> r == key
  {
    TranslationsLookup(lang, key);
    Lookup(Translations, lang, key)
  }

  lemma TranslationsLookup(lang: string, key: string)
    ensures key in Keys && lang in Supported ==> Lookup(Translations, lang, key) == Translations[lang][key]
    ensures key in Keys && lang !in Supported ==> Lookup(Translations, lang, key) == Translations["en"][key]
    ensures key !in Keys ==> Lookup(Translations, lang, key) == key
  {
    TableLanguages();
    TablesComplete("en");
    if lang in Supported {
      TablesComplete(lang);
    }
  }

  /** A language the tables do not have reads exactly like English, and so
      does a language that lacks the key. */
  lemma UnknownLanguageIsEnglish(t: Table, lang: string, key: string)
    requires !HasText(t, lang, key)
    ensures Lookup(t, lang, key) == Lookup(t, "en", key)
  {
  }

  /** The lookup never comes back empty for a non-empty key, and what it
      returns is one of the two languages' strings or the key. */
  lemma LookupNeverEmpty(t: Table, lang: string, key: string)
    ensures key != "" ==> Lookup(t, lang, key) != ""
    ensures var r := Lookup(t, lang, key);
      r == key || (lang in t && key in t[lang] && r == t[lang][key])
               || ("en" in t && key in t["en"] && r == t["en"][key])
  {
  }

  /** The tables are exactly those of the three supported languages. */
  lemma TableLanguages()
    ensures Translations.Keys == Supported
    ensures Translations["fr"] == French && Translations["en"] == English && Translations["ar"] == Arabic
  {
  }

  /** The three tables define exactly the same ten keys, none of them empty. */
  lemma TablesComplete(lang: string)
    requires lang in Supported
    ensures Translations[lang].Keys == Keys
    ensures forall key :: key in Keys ==> HasText(Translations, lang, key)
  {
    TableLanguages();
    if lang == "fr" { FrenchComplete(); }
    else if lang == "en" { EnglishComplete(); }
    else { ArabicComplete(); }
  }

  lemma FrenchComplete()
    ensures French.Keys == Keys
    ensures forall key :: key in Keys ==> French[key] != ""
  {
  }

  lemma EnglishComplete()
    ensures English.Keys == Keys
    ensures forall key :: key in Keys ==> English[key] != ""
  {
  }

  lemma ArabicComplete()
    ensures Arabic.Keys == Keys
    ensures forall key :: key in Keys ==> Arabic[key] != ""
  {
  }
}
