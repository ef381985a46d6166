// The project modal of src/components/projects/project-modal.tsx: nothing without a project
// or while closed; otherwise the project's details in the current language, with the
// source and demo buttons shown for any non-empty link (no trimming, unlike the card).

module ProjectModal {
  import opened Types
  import opened ProjectText
  import ProjectCard

  /** What an open modal shows. */
  datatype ModalView = ModalView(
    title: string,
    description: string,
    category: Option<string>,
    image: Option<ImageRef>,
    date: Option<DateLabel>,
    techStack: seq<string>,
    showSource: bool,
    showDemo: bool)

  /** `value && …`: a present, non-empty link string. */
  predicate NonEmpty(value: Option<string>)
  {
    value.Some? && value.value != ""
  }

  /** The modal for `project` (null when absent), open or closed, in language `lang`. */
  function Modal(project: Option<Project>, isOpen: bool, lang: Language): (view: Option<ModalView>)
    ensures view.Some? <==> project.Some? && isOpen
    ensures view.Some? ==>
      var p := project.value;
      && view.value.title == p.title && view.value.techStack == p.techStack
      && view.value.description == Description(p.description, lang)
      && view.value.date == FormattedDate(p.publishedAt, lang)
      && (view.value.image.Some? <==> p.mainImage.Some?)
      && (view.value.category.Some? <==> p.category.Some? && p.category.value != "")
      && (view.value.showSource <==> ProjectCard.Repo(p).Some? && ProjectCard.Repo(p).value != "")
      && (view.value.showDemo <==> ProjectCard.Demo(p).Some? && ProjectCard.Demo(p).value != "")
  {
    if project.None? then None
    else if !isOpen then None
    else
      var p := project.value;
      Some(ModalView(
        p.title,
        Description(p.description, lang),
        if p.category.Some? && p.category.value != "" then p.category else None,
        p.mainImage,
        FormattedDate(p.publishedAt, lang),
        p.techStack,
        NonEmpty(ProjectCard.Repo(p)),
        NonEmpty(ProjectCard.Demo(p))))
  }

  // ---------------------------------------------------------------------------
  // Properties
  // ---------------------------------------------------------------------------

  /** Card and open modal agree on the description and the date of a project. */
  lemma ModalMatchesCard(p: Project, lang: Language)
    ensures Modal(Some(p), true, lang).Some?
    ensures Modal(Some(p), true, lang).value.description == ProjectCard.Card(p, lang).description
    ensures Modal(Some(p), true, lang).value.date == ProjectCard.Card(p, lang).date
  {
  }

  /** A link button on the card is a link button in the modal, since a non-blank link is non-empty. */
  lemma CardLinkShowsInModal(p: Project, lang: Language)
    ensures ProjectCard.Card(p, lang).hasGithub ==> Modal(Some(p), true, lang).value.showSource
    ensures ProjectCard.Card(p, lang).hasDemo ==> Modal(Some(p), true, lang).value.showDemo
  {
    var repo := ProjectCard.Repo(p);
    if repo.Some? && repo.value == "" {
      assert ProjectCard.AllBlank(repo.value);
    }
    var demo := ProjectCard.Demo(p);
    if demo.Some? && demo.value == "" {
      assert ProjectCard.AllBlank(demo.value);
    }
  }

  /** The converse fails: a repository link of one space shows a source button in the modal only. */
  lemma BlankRepoShowsOnlyInModal(p: Project, lang: Language)
    requires p.links == Some(Links(None, Some(" ")))
    ensures Modal(Some(p), true, lang).value.showSource
    ensures !ProjectCard.Card(p, lang).hasGithub
  {
    ProjectCard.BlankRepoHasNoButton(p, lang);
  }
}
