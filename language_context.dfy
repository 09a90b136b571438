/**
 * The interface-language context: five translation dictionaries, the
 * current language (English until a saved preference is loaded or a new
 * one is chosen) and `t`, which looks a key up in the current language,
 * then in English, then gives the key back.
 */
module LanguageContext {
  import opened Wrappers

  datatype Language = En | Hi | Bn | Te | Ta

  function Code(l: Language): string {
    match l
    case En => "en"
    case Hi => "hi"
    case Bn => "bn"
    case Te => "te"
    case Ta => "ta"
  }

  /**
   * The language a stored string names, if `translations` has that key.
   * Absent and empty stored values are falsy and name none.
   */
  function ParseLanguage(s: string): (r: Option<Language>)
    ensures r.Some? ==> Code(r.value) == s
    ensures r.None? ==> forall l: Language :: Code(l) != s
  {
    if s == "en" then Some(En)
    else if s == "hi" then Some(Hi)
    else if s == "bn" then Some(Bn)
    else if s == "te" then Some(Te)
    else if s == "ta" then Some(Ta)
    else None
  }

  /** Every language code reads back as its language. */
  lemma {:induction false} ParseCode(l: Language)
    ensures ParseLanguage(Code(l)) == Some(l)
  {
    match l
    case En =>
    case Hi => assert Code(l)[0] == 'h';
    case Bn => assert Code(l)[0] == 'b';
    case Te => assert Code(l)[0] == 't' && Code(l)[1] == 'e';
    case Ta => assert Code(l)[0] == 't' && Code(l)[1] == 'a';
  }

  /** The five dictionaries, from translation key to text. */
  datatype Translations = Translations(
    en: map<string, string>,
    hi: map<string, string>,
    bn: map<string, string>,
    te: map<string, string>,
    ta: map<string, string>)
  {
    function For(l: Language): map<string, string> {
      match l
      case En => en
      case Hi => hi
      case Bn => bn
      case Te => te
      case Ta => ta
    }
  }

  /** A missing key reads as `undefined`; both it and "" are falsy, so both are "". */
  function Lookup(d: map<string, string>, key: string): string {
    if key in d then d[key] else ""
  }

  /** The text `t(key)` shows in language `lang`. */
  function Translate(tr: Translations, lang: Language, key: string): (r: string)
    ensures r == Lookup(tr.For(lang), key) || r == Lookup(tr.en, key) || r == key
  {
    var own := Lookup(tr.For(lang), key);
    if own != "" then own
    else
      var english := Lookup(tr.en, key);
      if english != "" then english else key
  }

  /**
   * The three levels of the fallback: the current language's text when it
   * has a non-empty one, else the English text when non-empty, else the key.
   */
  lemma TranslateFallback(tr: Translations, lang: Language, key: string)
    ensures key in tr.For(lang) && tr.For(lang)[key] != "" ==> Translate(tr, lang, key) == tr.For(lang)[key]
    ensures (key !in tr.For(lang) || tr.For(lang)[key] == "") && key in tr.en && tr.en[key] != "" ==>
      Translate(tr, lang, key) == tr.en[key]
    ensures (key !in tr.For(lang) || tr.For(lang)[key] == "") && (key !in tr.en || tr.en[key] == "") ==>
      Translate(tr, lang, key) == key
  {
  }

  /** `t` never shows an empty string for a non-empty key. */
  lemma TranslateNonEmpty(tr: Translations, lang: Language, key: string)
    requires key != ""
    ensures Translate(tr, lang, key) != ""
  {
  }

  /** A key every dictionary lacks is shown as itself, whatever the language. */
  lemma UnknownKeyShownAsItself(tr: Translations, key: string)
    requires forall l: Language :: key !in tr.For(l)
    ensures forall l: Language :: Translate(tr, l, key) == key
  {
    assert key !in tr.For(En);
  }

  /** The `localStorage` entry that remembers the choice. */
  const PreferenceKey: string := "preferred-language"

  /**
   * `LanguageProvider`'s state: `currentLanguage` and the browser's
   * `localStorage`, of which only `PreferenceKey` is used.
   */
  class LanguageProvider {
    const translations: Translations
    var currentLanguage: Language
    var storage: map<string, string>

    /** The first render: English, whatever is stored. */
    constructor(tr: Translations, storage: map<string, string>)
      ensures translations == tr && currentLanguage == En && this.storage == storage
    {
      translations := tr;
      currentLanguage := En;
      this.storage := storage;
    }

    /** The mount effect: a stored preference is adopted only if it names a dictionary. */
    method LoadSavedLanguage()
      modifies this
      ensures storage == old(storage)
      ensures PreferenceKey in storage && ParseLanguage(storage[PreferenceKey]).Some? ==>
        currentLanguage == ParseLanguage(storage[PreferenceKey]).value &&
        Code(currentLanguage) == storage[PreferenceKey]
      ensures PreferenceKey !in storage || ParseLanguage(storage[PreferenceKey]).None? ==>
        currentLanguage == old(currentLanguage)
    {
      if PreferenceKey in storage {
        var saved := ParseLanguage(storage[PreferenceKey]);
        if saved.Some? {
          currentLanguage := saved.value;
        }
      }
    }

    method SetLanguage(l: Language)
      modifies this
      ensures currentLanguage == l
      ensures storage == old(storage)[PreferenceKey := Code(l)]
    {
      currentLanguage := l;
      storage := storage[PreferenceKey := Code(l)];
    }

    function T(key: string): (r: string)
      reads this
      ensures r == Translate(translations, currentLanguage, key)
      ensures key != "" ==> r != ""
    {
      Translate(translations, currentLanguage, key)
    }
  }

  /**
   * A choice survives a reload: a provider started on the storage that
   * `setLanguage` left behind comes up in the chosen language once its
   * mount effect has run.
   */
  method ChoiceSurvivesReload(tr: Translations, storage: map<string, string>, l: Language)
    returns (reloaded: LanguageProvider)
    ensures reloaded.currentLanguage == l
  {
    var first := new LanguageProvider(tr, storage);
    first.SetLanguage(l);
    reloaded := new LanguageProvider(tr, first.storage);
    ParseCode(l);
    reloaded.LoadSavedLanguage();
  }
}
