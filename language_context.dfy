// The interface-language state of src/context/language-context.tsx: a provider that starts
// in English and hidden, adopts a stored choice when it mounts, and persists every change
// to the browser's local storage; and the hook that hands the provider to components.
//
// The provider's React state is the class's fields; local storage is a `map` field, and
// `typeof window !== 'undefined'` is the constant `inBrowser`.

module LanguageContext {
  import opened Types

  /** The local-storage key under which the choice is kept. */
  const StorageKey := "app-lang"

  /** The message the hook raises outside a provider. */
  const OutsideProviderMessage := "useLanguage must be used within a LanguageProvider"

  datatype Result<T> = Success(value: T) | Failure(message: string)

  /** The storage entry for `key`, if there is one (`localStorage.getItem`). */
  function GetItem(storage: map<string, string>, key: string): (v: Option<string>)
    ensures v.Some? <==> key in storage
    ensures v.Some? ==> v.value == storage[key]
  {
    if key in storage then Some(storage[key]) else None
  }

  /** The mount rule: a stored `vi` or `ja` is adopted; anything else keeps the current language. */
  function Adopted(current: Language, stored: Option<string>): (l: Language)
    ensures stored == Some("vi") ==> l == Vi
    ensures stored == Some("ja") ==> l == Ja
    ensures stored != Some("vi") && stored != Some("ja") ==> l == current
  {
    if stored == Some("vi") then Vi
    else if stored == Some("ja") then Ja
    else current
  }

  class LanguageProvider {
    var language: Language
    var isMounted: bool
    /** The browser's local storage. */
    var storage: map<string, string>
    /** Whether the code runs in a browser (`typeof window !== 'undefined'`). */
    const inBrowser: bool

    /** The initial state: English, not yet mounted. */
    constructor(initialStorage: map<string, string>, inBrowser: bool)
      ensures language == En && !isMounted
      ensures storage == initialStorage && this.inBrowser == inBrowser
    {
      language := En;
      isMounted := false;
      storage := initialStorage;
      this.inBrowser := inBrowser;
    }

    /** Whether the children are visible: they stay hidden until the provider has mounted. */
    predicate ContentVisible()
      reads this
    {
      isMounted
    }

    /** The mount effect: mark mounted, then adopt a stored `vi` or `ja`. */
    method Mount()
      modifies this
      ensures isMounted
      ensures language == Adopted(old(language), GetItem(old(storage), StorageKey))
      ensures storage == old(storage)
    {
      isMounted := true;
      var saved := GetItem(storage, StorageKey);
      if saved == Some("vi") {
        language := Vi;
      } else if saved == Some("ja") {
        language := Ja;
      }
    }

    /** `setLanguage`: switch the language and, in a browser, persist its code. */
    method SetLanguage(lang: Language)
      modifies this
      ensures language == lang && isMounted == old(isMounted)
      ensures inBrowser ==> storage == old(storage)[StorageKey := lang.Code()]
      ensures !inBrowser ==> storage == old(storage)
    {
      language := lang;
      if inBrowser {
        storage := storage[StorageKey := lang.Code()];
      }
    }
  }

  /** `useLanguage`: the provider in scope, or the error for a component outside any provider. */
  function UseLanguage(context: Option<LanguageProvider>): (r: Result<LanguageProvider>)
    ensures r.Success? <==> context.Some?
    ensures r.Success? ==> r.value == context.value
    ensures r.Failure? ==> r.message == OutsideProviderMessage
  {
    match context
    case None => Failure(OutsideProviderMessage)
    case Some(provider) => Success(provider)
  }

  // ---------------------------------------------------------------------------
  // Properties
  // ---------------------------------------------------------------------------

  /**
   * A persisted choice survives a reload: a fresh provider (English) that mounts over the
   * storage `setLanguage(l)` left behind ends up in `l`, for each of the three languages.
   */
  lemma PersistedChoiceReloads(storage: map<string, string>, l: Language)
    ensures Adopted(En, GetItem(storage[StorageKey := l.Code()], StorageKey)) == l
  {
    var stored := GetItem(storage[StorageKey := l.Code()], StorageKey);
    assert stored == Some(l.Code());
    match l
    case En =>
      assert l.Code() == "en";
      assert "en" != "vi" && "en" != "ja";
    case Vi =>
    case Ja =>
  }

  /** Mounting adopts only the two non-default languages: the result is the current one, `Vi` or `Ja`. */
  lemma AdoptedIsCurrentOrStored(current: Language, stored: Option<string>)
    ensures Adopted(current, stored) == current || (Adopted(current, stored) != En && stored == Some(Adopted(current, stored).Code()))
  {
  }

  /** Mounting twice over the same storage changes nothing the second time. */
  lemma AdoptedIdempotent(current: Language, stored: Option<string>)
    ensures Adopted(Adopted(current, stored), stored) == Adopted(current, stored)
  {
  }

  /** The mounted state is what a fresh provider reaches: English unless storage holds `vi` or `ja`. */
  method Reload(storage: map<string, string>, inBrowser: bool) returns (lang: Language, visible: bool)
    ensures lang == Adopted(En, GetItem(storage, StorageKey))
    ensures lang == En <==> GetItem(storage, StorageKey) != Some("vi") && GetItem(storage, StorageKey) != Some("ja")
    ensures visible
  {
    var provider := new LanguageProvider(storage, inBrowser);
    provider.Mount();
    lang := provider.language;
    visible := provider.ContentVisible();
  }
}
