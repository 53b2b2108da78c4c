/** The language context (src/contexts/LanguageContext.tsx): which of the
    three display languages is active, where that choice is kept between
    visits, and `t`, the dotted-key lookup into the active dictionary. */
module LanguageContext {
  import opened Wrappers
  import Strings

  datatype Language = Pt | En | Es

  /** The code a language is saved under. */
  function Code(lang: Language): (code: string)
    ensures code in {"pt", "en", "es"}
  {
    match lang
    case Pt => "pt"
    case En => "en"
    case Es => "es"
  }

  /** The first language: the saved code when it is one of the three codes,
      otherwise Portuguese; outside a browser there is nothing saved to
      read. */
  function InitialLanguage(inBrowser: bool, saved: Option<string>): (lang: Language)
    ensures inBrowser && saved.Some? && saved.value in {"pt", "en", "es"} ==> Code(lang) == saved.value
    ensures !(inBrowser && saved.Some? && saved.value in {"pt", "en", "es"}) ==> lang == Pt
  {
    if !inBrowser || saved.None? then Pt
    else if saved.value == "en" then En
    else if saved.value == "es" then Es
    else Pt
  }

  /** A language that was saved is the one chosen on the next visit. */
  lemma SavedLanguageRestored(lang: Language)
    ensures InitialLanguage(true, Some(Code(lang))) == lang
  {
  }

  /** A node of a locale file: a text, or an object of named entries. */
  datatype Entry = Text(text: string) | Group(children: map<string, Entry>)

  /** The three locale files. */
  datatype Catalogue = Catalogue(pt: Entry, en: Entry, es: Entry)

  function Dictionary(catalogue: Catalogue, lang: Language): Entry {
    match lang
    case Pt => catalogue.pt
    case En => catalogue.en
    case Es => catalogue.es
  }

  /** `value?.[k]`: the entry named `k`, if `e` is an object that has one. */
  function Child(e: Entry, k: string): (c: Option<Entry>)
    ensures c.Some? <==> e.Group? && k in e.children
  {
    match e
    case Group(m) => if k in m then Some(m[k]) else None
    case Text(_) => None
  }

  /** Follows `path` one segment at a time from `e`; None as soon as a
      segment is missing. */
  function Walk(e: Entry, path: seq<string>): (reached: Option<Entry>)
    ensures path == [] ==> reached == Some(e)
    ensures |path| == 1 ==> reached == Child(e, path[0])
    ensures reached.Some? && path != [] ==> e.Group?
    decreases |path|
  {
    if path == [] then Some(e)
    else
      match Child(e, path[0])
      case None => None
      case Some(c) => Walk(c, path[1..])
  }

  /** What `t(key)` returns: the entry reached by the segments of `key`
      split on ".", or `key` itself when some segment is missing. */
  function Translation(dict: Entry, key: string): (found: Entry)
    ensures Walk(dict, Strings.Split(key, ".")) == Some(found) || found == Text(key)
    ensures Walk(dict, Strings.Split(key, ".")).None? ==> found == Text(key)
  {
    match Walk(dict, Strings.Split(key, "."))
    case Some(v) => v
    case None => Text(key)
  }

  /** Walking a path walks its first part, then the rest from there. */
  lemma {:induction false} WalkAppend(e: Entry, p: seq<string>, q: seq<string>)
    ensures Walk(e, p + q) == match Walk(e, p)
                              case None => None
                              case Some(v) => Walk(v, q)
    decreases |p|
  {
    if p == [] {
      assert p + q == q;
    } else {
      assert (p + q)[0] == p[0];
      assert (p + q)[1..] == p[1..] + q;
      match Child(e, p[0])
      case None =>
      case Some(c) => WalkAppend(c, p[1..], q);
    }
  }

  /** `t("a.b")` is `b` looked up inside what `a` names, and `key` itself
      when either half is missing. */
  lemma TranslationComposes(dict: Entry, outer: string, inner: string)
    ensures Translation(dict, outer + "." + inner) ==
            match Walk(dict, Strings.Split(outer, "."))
            case None => Text(outer + "." + inner)
            case Some(v) =>
              match Walk(v, Strings.Split(inner, "."))
              case None => Text(outer + "." + inner)
              case Some(w) => w
  {
    Strings.SplitConcat(outer, inner, ".");
    WalkAppend(dict, Strings.Split(outer, "."), Strings.Split(inner, "."));
  }

  /** If the walk reaches an entry that lacks the next segment, `t` returns
      the key unchanged. */
  lemma MissingSegmentFallsBack(dict: Entry, key: string, i: nat, reached: Entry)
    requires i < |Strings.Split(key, ".")|
    requires Walk(dict, Strings.Split(key, ".")[..i]) == Some(reached)
    requires Child(reached, Strings.Split(key, ".")[i]) == None
    ensures Translation(dict, key) == Text(key)
  {
    var keys := Strings.Split(key, ".");
    assert keys == keys[..i] + keys[i..];
    WalkAppend(dict, keys[..i], keys[i..]);
  }

  /** A key without a dot names an entry of the dictionary directly. */
  lemma PlainKeyLookup(dict: Entry, key: string)
    requires Strings.Free(key, ".")
    ensures Translation(dict, key) == match Child(dict, key)
                                      case None => Text(key)
                                      case Some(v) => v
  {
    Strings.SplitFree(key, ".");
    assert [key][1..] == [];
    match Child(dict, key)
    case None =>
    case Some(v) => assert Walk(v, []) == Some(v);
  }

  /** The provider's state: the active language, the loading flag shown
      while switching, and the value saved under "language" in the
      browser's local storage. */
  class LanguageProvider {
    const catalogue: Catalogue
    const inBrowser: bool
    var language: Language
    var isLoading: bool
    var saved: Option<string>

    constructor (catalogue: Catalogue, inBrowser: bool, saved: Option<string>)
      ensures this.catalogue == catalogue && this.inBrowser == inBrowser
      ensures this.saved == saved
      ensures language == InitialLanguage(inBrowser, saved)
      ensures !isLoading
    {
      this.catalogue := catalogue;
      this.inBrowser := inBrowser;
      this.saved := saved;
      language := InitialLanguage(inBrowser, saved);
      isLoading := false;
    }

    /** `t(key)`: walks the active dictionary segment by segment and gives
        up with the key itself at the first missing segment. */
    method T(key: string) returns (r: Entry)
      ensures r == Translation(Dictionary(catalogue, language), key)
    {
      var keys := Strings.Split(key, ".");
      var value := Dictionary(catalogue, language);
      var i := 0;
      while i < |keys|
        invariant 0 <= i <= |keys|
        invariant Walk(Dictionary(catalogue, language), keys) == Walk(value, keys[i..])
      {
        assert keys[i..][1..] == keys[i + 1..];
        var next := Child(value, keys[i]);
        if next.None? {
          return Text(key);
        }
        value := next.value;
        i := i + 1;
      }
      return value;
    }

    /** The synchronous start of `setLanguage`: nothing happens when `lang`
        is already active; otherwise the loader is raised. */
    method BeginSwitch(lang: Language) returns (started: bool)
      modifies this`isLoading
      ensures started == (lang != language)
      ensures isLoading == (started || old(isLoading))
    {
      started := lang != language;
      if started {
        isLoading := true;
      }
    }

    /** After the short delay: the language becomes `lang` and, in a
        browser, its code is saved. */
    method CommitSwitch(lang: Language)
      modifies this`language, this`saved
      ensures language == lang
      ensures saved == if inBrowser then Some(Code(lang)) else old(saved)
    {
      language := lang;
      if inBrowser {
        saved := Some(Code(lang));
      }
    }

    /** The later timer that hides the loader. */
    method EndSwitch()
      modifies this`isLoading
      ensures !isLoading
    {
      isLoading := false;
    }

    /** `setLanguage(lang)` with its three steps run in order. */
    method SetLanguage(lang: Language)
      modifies this`isLoading, this`language, this`saved
      ensures lang == old(language) ==>
                language == old(language) && isLoading == old(isLoading) && saved == old(saved)
      ensures lang != old(language) ==>
                language == lang && !isLoading &&
                saved == if inBrowser then Some(Code(lang)) else old(saved)
    {
      var started := BeginSwitch(lang);
      if started {
        CommitSwitch(lang);
        EndSwitch();
      }
    }
  }
}
