// The project card of src/components/projects/project-card.tsx: what a card shows for a
// project in the current language. Link buttons need a link that is not blank after
// JavaScript's `String.prototype.trim`, which is modelled here in full.

module ProjectCard {
  import opened Types
  import opened ProjectText

  /**
   * The characters `trim` removes: the ECMAScript WhiteSpace (tab, vertical tab, form feed,
   * space, no-break space, the byte order mark and the other space separators) and
   * LineTerminator (line feed, carriage return, line and paragraph separators) code points.
   */
  predicate IsTrimmed(c: char)
  {
    || c == '\U{9}' || c == '\U{A}' || c == '\U{B}' || c == '\U{C}' || c == '\U{D}'
    || c == '\U{20}' || c == '\U{A0}' || c == '\U{1680}' || ('\U{2000}' <= c <= '\U{200A}')
    || c == '\U{2028}' || c == '\U{2029}' || c == '\U{202F}' || c == '\U{205F}' || c == '\U{3000}'
    || c == '\U{FEFF}'
  }

  /** Whether every character of `s` is trimmed away. */
  predicate AllBlank(s: string)
  {
    forall k :: 0 <= k < |s| ==> IsTrimmed(s[k])
  }

  /** The number of trimmed characters from `i` onwards before the first kept one. */
  function LeadingBlank(s: string, i: nat): (n: nat)
    requires i <= |s|
    ensures i + n <= |s|
    ensures forall k :: i <= k < i + n ==> IsTrimmed(s[k])
    ensures i + n == |s| || !IsTrimmed(s[i + n])
    decreases |s| - i
  {
    if i < |s| && IsTrimmed(s[i]) then 1 + LeadingBlank(s, i + 1) else 0
  }

  /** The number of trimmed characters just before `j`, back to the last kept one. */
  function TrailingBlank(s: string, j: nat): (n: nat)
    requires j <= |s|
    ensures n <= j
    ensures forall k :: j - n <= k < j ==> IsTrimmed(s[k])
    ensures n == j || !IsTrimmed(s[j - n - 1])
  {
    if j > 0 && IsTrimmed(s[j - 1]) then 1 + TrailingBlank(s, j - 1) else 0
  }

  /** `s.trim()`: `s` without its leading and trailing white space and line terminators. */
  function Trim(s: string): (t: string)
    ensures t == "" <==> AllBlank(s)
    ensures t != "" ==> !IsTrimmed(t[0]) && !IsTrimmed(t[|t| - 1])
    ensures var a := LeadingBlank(s, 0);
      && AllBlank(s[..a])
      && a + |t| <= |s| && t == s[a..a + |t|]
      && AllBlank(s[a + |t|..])
  {
    var a := LeadingBlank(s, 0);
    if a == |s| then ""
    else
      var b := TrailingBlank(s, |s|);
      assert !IsTrimmed(s[a]);
      assert |s| - b > a;
      var t := s[a..|s| - b];
      assert t[0] == s[a];
      assert s[a + |t|..] == s[|s| - b..];
      t
  }

  /** `value && value.trim() !== ""`: a present value with at least one character trim keeps. */
  predicate HasText(value: Option<string>)
  {
    value.Some? && Trim(value.value) != ""
  }

  /** The thumbnail area: the cover image, or the "No Image" placeholder. */
  datatype Thumbnail = CoverImage(image: ImageRef) | NoImagePlaceholder

  /** What a card shows. */
  datatype CardView = CardView(
    title: string,
    description: string,
    category: Option<string>,
    date: Option<DateLabel>,
    thumbnail: Thumbnail,
    techStack: seq<string>,
    hasGithub: bool,
    hasDemo: bool,
    hasFooter: bool)

  /** The repository link of a project, if it has a links object. */
  function Repo(p: Project): Option<string>
  {
    if p.links.Some? then p.links.value.repo else None
  }

  /** The demo link of a project, if it has a links object. */
  function Demo(p: Project): Option<string>
  {
    if p.links.Some? then p.links.value.demo else None
  }

  /** The card of project `p` in language `lang`. */
  function Card(p: Project, lang: Language): (view: CardView)
    ensures view.title == p.title && view.techStack == p.techStack
    ensures view.description == Description(p.description, lang)
    ensures view.category.Some? <==> p.category.Some? && p.category.value != ""
    ensures view.category.Some? ==> view.category == p.category
    ensures view.date == FormattedDate(p.publishedAt, lang)
    ensures view.thumbnail.NoImagePlaceholder? <==> p.mainImage.None?
    ensures view.thumbnail.CoverImage? ==> view.thumbnail.image == p.mainImage.value
    ensures view.hasGithub <==> Repo(p).Some? && !AllBlank(Repo(p).value)
    ensures view.hasDemo <==> Demo(p).Some? && !AllBlank(Demo(p).value)
    ensures view.hasFooter <==> view.hasGithub || view.hasDemo
  {
    var hasGithub := HasText(Repo(p));
    var hasDemo := HasText(Demo(p));
    CardView(
      p.title,
      Description(p.description, lang),
      if p.category.Some? && p.category.value != "" then p.category else None,
      FormattedDate(p.publishedAt, lang),
      if p.mainImage.Some? then CoverImage(p.mainImage.value) else NoImagePlaceholder,
      p.techStack,
      hasGithub,
      hasDemo,
      hasGithub || hasDemo)
  }

  // ---------------------------------------------------------------------------
  // Properties
  // ---------------------------------------------------------------------------

  /** A leading run of trimmed characters is pinned down by its characters and the one after it. */
  lemma {:induction false} LeadingBlankIs(s: string, i: nat, n: nat)
    requires i + n <= |s|
    requires forall k :: i <= k < i + n ==> IsTrimmed(s[k])
    requires i + n == |s| || !IsTrimmed(s[i + n])
    ensures LeadingBlank(s, i) == n
    decreases n
  {
    if n > 0 {
      LeadingBlankIs(s, i + 1, n - 1);
    }
  }

  /** A trailing run of trimmed characters is pinned down the same way. */
  lemma {:induction false} TrailingBlankIs(s: string, j: nat, n: nat)
    requires n <= j <= |s|
    requires forall k :: j - n <= k < j ==> IsTrimmed(s[k])
    requires n == j || !IsTrimmed(s[j - n - 1])
    ensures TrailingBlank(s, j) == n
    decreases n
  {
    if n > 0 {
      TrailingBlankIs(s, j - 1, n - 1);
    }
  }

  /** A string that starts and ends with kept characters is its own trim. */
  lemma TrimKeepsClean(s: string)
    requires s != "" && !IsTrimmed(s[0]) && !IsTrimmed(s[|s| - 1])
    ensures Trim(s) == s
  {
    LeadingBlankIs(s, 0, 0);
    TrailingBlankIs(s, |s|, 0);
  }

  /** Trimming twice is trimming once. */
  lemma TrimIdempotent(s: string)
    ensures Trim(Trim(s)) == Trim(s)
  {
    if Trim(s) != "" {
      TrimKeepsClean(Trim(s));
    }
  }

  /** The footer shows exactly when some link has a character other than white space. */
  lemma FooterNeedsVisibleLink(p: Project, lang: Language)
    ensures Card(p, lang).hasFooter <==>
      (Repo(p).Some? && exists k :: 0 <= k < |Repo(p).value| && !IsTrimmed(Repo(p).value[k])) ||
      (Demo(p).Some? && exists k :: 0 <= k < |Demo(p).value| && !IsTrimmed(Demo(p).value[k]))
  {
  }

  /** A blank link counts as no link: a project whose repository is a single space has no code button. */
  lemma BlankRepoHasNoButton(p: Project, lang: Language)
    requires p.links == Some(Links(None, Some(" ")))
    ensures !Card(p, lang).hasGithub && !Card(p, lang).hasFooter
  {
    assert AllBlank(" ");
  }
}
