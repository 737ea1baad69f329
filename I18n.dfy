/** The translation manager (adb_copy/i18n.py): a current language code,
    changed only to a code the table knows, and a lookup that falls back to
    the English text. The Korean catalogue is a constructor parameter. */
module I18n {
  /** The language a run of `set_language` calls ends on: each known code
      replaces the current one, any other code is ignored. */
  function LanguageAfter(start: string, known: set<string>, codes: seq<string>): string {
    if |codes| == 0 then start
    else
      var before := LanguageAfter(start, known, codes[..|codes| - 1]);
      if codes[|codes| - 1] in known then codes[|codes| - 1] else before
  }

  /** After a run of `set_language` calls the language is the last known
      code among them, or the starting one when none was known. */
  lemma {:induction false} LanguageAfterSpec(start: string, known: set<string>, codes: seq<string>)
    ensures var r := LanguageAfter(start, known, codes);
      (r == start && forall k :: 0 <= k < |codes| ==> codes[k] !in known) ||
      (exists k :: 0 <= k < |codes| && codes[k] in known && r == codes[k] &&
        forall j :: k < j < |codes| ==> codes[j] !in known)
  {
    if |codes| > 0 {
      var init := codes[..|codes| - 1];
      LanguageAfterSpec(start, known, init);
      if codes[|codes| - 1] !in known {
        var r := LanguageAfter(start, known, init);
        if !(r == start && forall k :: 0 <= k < |init| ==> init[k] !in known) {
          var k :| 0 <= k < |init| && init[k] in known && r == init[k] &&
            forall j :: k < j < |init| ==> init[j] !in known;
          assert codes[k] == init[k];
          assert forall j :: k < j < |codes| ==> codes[j] !in known by {
            forall j | k < j < |codes| ensures codes[j] !in known {
              if j < |init| {
                assert codes[j] == init[j];
              }
            }
          }
        } else {
          assert forall k :: 0 <= k < |codes| ==> codes[k] !in known by {
            forall k | 0 <= k < |codes| ensures codes[k] !in known {
              if k < |init| {
                assert codes[k] == init[k];
              }
            }
          }
        }
      }
    }
  }

  class Translation {
    var currentLanguage: string
    /** Language code to catalogue; English maps nothing. */
    var translations: map<string, map<string, string>>

    /** The language is a known code, and English has an empty
        catalogue. */
    ghost predicate Valid()
      reads this
    {
      currentLanguage in translations && "en" in translations && translations["en"] == map[]
    }

    constructor(korean: map<string, string>)
      ensures Valid()
      ensures currentLanguage == "en"
      ensures translations == map["en" := map[], "ko" := korean]
    {
      currentLanguage := "en";
      translations := map["en" := map[], "ko" := korean];
    }

    /** `set_language`: switch only to a code the table knows. */
    method SetLanguage(language: string)
      requires Valid()
      modifies this
      ensures Valid()
      ensures currentLanguage == LanguageAfter(old(currentLanguage), translations.Keys, [language])
      ensures translations == old(translations)
    {
      assert [language][..0] == [];
      if language in translations {
        currentLanguage := language;
      }
    }

    /** `get_language`: always one of the table's codes. */
    function GetLanguage(): (r: string)
      requires Valid()
      reads this
      ensures r in translations
    {
      currentLanguage
    }

    /** `translate`: the text itself in English; otherwise the catalogue's
        entry for it, or the text when the catalogue has none. */
    function Translate(text: string): (r: string)
      reads this
      ensures currentLanguage == "en" ==> r == text
      ensures r == text || (currentLanguage in translations && text in translations[currentLanguage] && r == translations[currentLanguage][text])
      ensures currentLanguage != "en" && currentLanguage in translations && text in translations[currentLanguage] ==>
        r == translations[currentLanguage][text]
    {
      if currentLanguage == "en" then text
      else
        var catalogue := if currentLanguage in translations then translations[currentLanguage] else map[];
        if text in catalogue then catalogue[text] else text
    }

    /** `__call__`: the same as `translate`. */
    function Call(text: string): (r: string)
      reads this
      ensures r == Translate(text)
    {
      Translate(text)
    }
  }

  /** Since English has an empty catalogue, the English shortcut agrees with
      the general lookup with fallback. */
  lemma EnglishShortcutAgrees(t: Translation, text: string)
    requires t.Valid()
    ensures t.Translate(text) == (if text in t.translations[t.currentLanguage] then t.translations[t.currentLanguage][text] else text)
  {
  }

  // ---------------------------------------------------------------------
  // The module-level helpers, which act on one shared manager

  /** `tr`: translate with the shared manager. */
  function Tr(translator: Translation, text: string): (r: string)
    reads translator
    ensures r == translator.Translate(text)
  {
    translator.Call(text)
  }

  /** `set_language` at module level. */
  method SetGlobalLanguage(translator: Translation, language: string)
    requires translator.Valid()
    modifies translator
    ensures translator.Valid() && translator.translations == old(translator.translations)
    ensures translator.currentLanguage == LanguageAfter(old(translator.currentLanguage), translator.translations.Keys, [language])
  {
    translator.SetLanguage(language);
  }

  /** `get_language` at module level. */
  function GetGlobalLanguage(translator: Translation): (r: string)
    requires translator.Valid()
    reads translator
    ensures r == translator.GetLanguage()
  {
    translator.GetLanguage()
  }
}
