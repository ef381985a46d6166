// Shared value types of the portfolio site: the optional wrapper, the closed set of
// interface languages, localized text and the content-store records that more than
// one component reads (src/types/index.ts, src/context/language-context.tsx).

module Types {

  datatype Option<+T> = None | Some(value: T)

  /** The three interface languages; `Code` is the string the site stores and compares. */
  datatype Language = En | Vi | Ja {
    function Code(): (c: string)
      ensures |c| == 2
    {
      match this
      case En => "en"
      case Vi => "vi"
      case Ja => "ja"
    }
  }

  /** Different languages have different codes, so a stored code names one language. */
  lemma CodeInjective(a: Language, b: Language)
    requires a.Code() == b.Code()
    ensures a == b
  {
    assert a.Code()[1] == b.Code()[1];
  }

  /** A `{ en?, vi?, ja? }` object of the content store. */
  datatype LocalizedText = LocalizedText(en: Option<string>, vi: Option<string>, ja: Option<string>)

  /** A reference to an image asset of the content store; only its presence matters here. */
  datatype ImageRef = ImageRef(assetRef: string)

  datatype Links = Links(demo: Option<string>, repo: Option<string>)

  /** A project record as the projects query returns it; any field may be missing in the data. */
  datatype Project = Project(
    docId: string,
    title: string,
    slug: string,
    description: Option<LocalizedText>,
    category: Option<string>,
    techStack: seq<string>,
    links: Option<Links>,
    mainImage: Option<ImageRef>,
    isFeatured: bool,
    publishedAt: Option<string>)

  /** `text?.[lang]`, with an absent entry read as the empty string (both are falsy). */
  function TextFor(text: Option<LocalizedText>, lang: Language): string
  {
    match text
    case None => ""
    case Some(t) =>
      var entry := match lang
        case En => t.en
        case Vi => t.vi
        case Ja => t.ja;
      if entry.Some? then entry.value else ""
  }
}
