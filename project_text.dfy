// The text rules the project card and the project modal share
// (src/components/projects/project-card.tsx, src/components/projects/project-modal.tsx):
// the localized description with its English fallback, and the locale the publication
// date is formatted in.

module ProjectText {
  import opened Types

  /**
   * `description?.[language] || description?.en || ""`: the current language's text when it
   * is non-empty, else the English text, else empty.
   */
  function Description(text: Option<LocalizedText>, lang: Language): (d: string)
    ensures TextFor(text, lang) != "" ==> d == TextFor(text, lang)
    ensures TextFor(text, lang) == "" ==> d == TextFor(text, En)
    ensures d == "" <==> TextFor(text, lang) == "" && TextFor(text, En) == ""
  {
    var own := TextFor(text, lang);
    if own != "" then own else TextFor(text, En)
  }

  /** The locale of the date: `vi-VN` for Vietnamese, `ja-JP` for Japanese, `en-US` otherwise. */
  function DateLocale(lang: Language): (locale: string)
    ensures |locale| == 5 && locale[2] == '-'
    ensures locale[..2] == lang.Code()
    ensures locale in {"vi-VN", "ja-JP", "en-US"}
  {
    match lang
    case Vi => "vi-VN"
    case Ja => "ja-JP"
    case En => "en-US"
  }

  /** A date to show: the stored timestamp and the locale it is formatted in. */
  datatype DateLabel = DateLabel(publishedAt: string, locale: string)

  /** `publishedAt ? toLocaleDateString(locale) : null`: no date for an absent or empty timestamp. */
  function FormattedDate(publishedAt: Option<string>, lang: Language): (date: Option<DateLabel>)
    ensures date.None? <==> publishedAt.None? || publishedAt.value == ""
    ensures date.Some? ==> date.value.publishedAt == publishedAt.value && date.value.locale == DateLocale(lang)
  {
    if publishedAt.Some? && publishedAt.value != "" then Some(DateLabel(publishedAt.value, DateLocale(lang)))
    else None
  }

  // ---------------------------------------------------------------------------
  // Properties
  // ---------------------------------------------------------------------------

  /** English readers see the English text or nothing; the fallback never mixes in a third language. */
  lemma DescriptionFromOwnOrEnglish(text: Option<LocalizedText>, lang: Language)
    ensures Description(text, lang) == TextFor(text, lang) || Description(text, lang) == TextFor(text, En)
    ensures Description(text, En) == TextFor(text, En)
  {
  }

  /** Every language gets its own locale: the mapping is one-to-one. */
  lemma DateLocaleInjective(a: Language, b: Language)
    requires DateLocale(a) == DateLocale(b)
    ensures a == b
  {
    assert a.Code() == DateLocale(a)[..2] == DateLocale(b)[..2] == b.Code();
    CodeInjective(a, b);
  }
}
