/**
 * The language picker: a fixed table of 42 languages, a search box that
 * narrows the list by name, the language shown on the button, and the
 * open/closed state of the drop-down.
 *
 * Names are compared after lower-casing with `JsStrings.ToLower`. The
 * drop-down's screen position, focus handling and rendering are not part
 * of this model.
 */
module LanguageSelector {
  import opened JsStrings

  datatype Language = Language(code: string, name: string)

  const ENGLISH: Language := Language("en", "English")

  /** `LANGUAGE_OPTIONS`, in table order. */
  const LANGUAGE_OPTIONS: seq<Language> := [
    ENGLISH,
    Language("de", "Deutsch"),
    Language("es", "Español"),
    Language("fr", "Français"),
    Language("ja", "日本語"),
    Language("pt", "Português"),
    Language("zh", "中文"),
    Language("hi", "हिन्दी"),
    Language("ko", "한국어"),
    Language("it", "Italiano"),
    Language("nl", "Nederlands"),
    Language("pl", "Polski"),
    Language("ru", "Русский"),
    Language("sv", "Svenska"),
    Language("tr", "Türkçe"),
    Language("tl", "Filipino"),
    Language("bg", "Български"),
    Language("ro", "Română"),
    Language("ar", "العربية"),
    Language("cs", "Čeština"),
    Language("el", "Ελληνικά"),
    Language("fi", "Suomi"),
    Language("hr", "Hrvatski"),
    Language("ms", "Bahasa Melayu"),
    Language("sk", "Slovenčina"),
    Language("da", "Dansk"),
    Language("ta", "தமிழ்"),
    Language("uk", "Українська"),
    Language("hu", "Magyar"),
    Language("no", "Norsk"),
    Language("vi", "Tiếng Việt"),
    Language("bn", "বাংলা"),
    Language("th", "ไทย"),
    Language("he", "עברית"),
    Language("ka", "ქართული"),
    Language("id", "Bahasa Indonesia"),
    Language("te", "తెలుగు"),
    Language("gu", "ગુજરાતી"),
    Language("kn", "ಕನ್ನಡ"),
    Language("ml", "മലയാളം"),
    Language("mr", "मराठी"),
    Language("pa", "ਪੰਜਾਬੀ")
  ]

  /** The search box keeps a language when its lower-cased name contains the lower-cased query. */
  predicate Matches(lang: Language, query: string) {
    Contains(ToLower(lang.name), ToLower(query))
  }

  /** `options.filter(...)`: the matching languages, in their original order. */
  function Filter(options: seq<Language>, query: string): (r: seq<Language>)
    ensures |r| <= |options|
    ensures forall l :: l in r <==> l in options && Matches(l, query)
  {
    if options == [] then []
    else
      var rest := Filter(options[1..], query);
      assert forall l :: l in options <==> l == options[0] || l in options[1..];
      if Matches(options[0], query) then [options[0]] + rest else rest
  }

  /** Filtering a concatenation filters each part: the kept languages stay in their original order. */
  lemma {:induction false} FilterAppend(a: seq<Language>, b: seq<Language>, query: string)
    ensures Filter(a + b, query) == Filter(a, query) + Filter(b, query)
  {
    if a != [] {
      assert (a + b)[0] == a[0] && (a + b)[1..] == a[1..] + b;
      FilterAppend(a[1..], b, query);
    } else {
      assert a + b == b;
    }
  }

  /** One language is kept exactly when it matches. */
  lemma FilterSingle(l: Language, query: string)
    ensures Filter([l], query) == if Matches(l, query) then [l] else []
  {
    assert [l][1..] == [];
  }

  /** `filteredLanguages`. */
  function FilteredLanguages(query: string): seq<Language> {
    Filter(LANGUAGE_OPTIONS, query)
  }

  /** An empty search keeps every language, in order. */
  lemma {:induction false} EmptyQueryKeepsAll(options: seq<Language>)
    ensures Filter(options, "") == options
  {
    if options != [] {
      EmptyQueryKeepsAll(options[1..]);
      assert Matches(options[0], "");
    }
  }

  /** With the search box empty, all 42 languages are listed in table order. */
  lemma EmptySearchListsTable()
    ensures FilteredLanguages("") == LANGUAGE_OPTIONS
    ensures |FilteredLanguages("")| == 42
  {
    EmptyQueryKeepsAll(LANGUAGE_OPTIONS);
  }

  lemma ToLowerAppend(a: string, b: string)
    ensures ToLower(a + b) == ToLower(a) + ToLower(b)
  {
    assert forall i :: 0 <= i < |a + b| ==> ToLower(a + b)[i] == (ToLower(a) + ToLower(b))[i];
  }

  /** A text containing a query followed by more characters contains the query. */
  lemma ContainsPrefixOfMatch(s: string, q: string, more: string)
    ensures Contains(s, q + more) ==> Contains(s, q)
  {
    if Contains(s, q + more) {
      var i :| OccursAt(s, q + more, i);
      assert s[i..i + |q|] == (q + more)[..|q|];
      assert OccursAt(s, q, i);
    }
  }

  /** Typing further characters never brings back a language the shorter query had filtered out. */
  lemma TypingNarrowsTheList(options: seq<Language>, query: string, more: string)
    ensures forall l :: l in Filter(options, query + more) ==> l in Filter(options, query)
  {
    ToLowerAppend(query, more);
    forall l | l in Filter(options, query + more)
      ensures Matches(l, query)
    {
      ContainsPrefixOfMatch(ToLower(l.name), ToLower(query), ToLower(more));
    }
  }

  /** No option before position `i` has the code. */
  predicate NoCodeBefore(options: seq<Language>, code: string, i: int)
    requires 0 <= i <= |options|
  {
    forall j :: 0 <= j < i ==> options[j].code != code
  }

  /** `LANGUAGE_OPTIONS.find(...) || LANGUAGE_OPTIONS[0]` over a table: the first option with the code, else the fallback. */
  function Find(options: seq<Language>, code: string, fallback: Language): (r: Language)
    ensures (exists l :: l in options && l.code == code) ==> r in options && r.code == code
    ensures (forall l :: l in options ==> l.code != code) ==> r == fallback
    ensures r in options || r == fallback
    ensures (exists i :: 0 <= i < |options| && options[i].code == code) ==>
      exists i :: 0 <= i < |options| && options[i] == r && NoCodeBefore(options, code, i)
  {
    if options == [] then fallback
    else if options[0].code == code then options[0]
    else
      assert forall l :: l in options <==> l == options[0] || l in options[1..];
      Find(options[1..], code, fallback)
  }

  /**
   * `selectedLang`: the language whose code is the selected one, or
   * English when no language has that code.
   */
  function SelectedLang(selectedLanguage: string): (r: Language)
    ensures r in LANGUAGE_OPTIONS
    ensures (exists l :: l in LANGUAGE_OPTIONS && l.code == selectedLanguage) ==> r.code == selectedLanguage
    ensures (forall l :: l in LANGUAGE_OPTIONS ==> l.code != selectedLanguage) ==> r == ENGLISH
  {
    Find(LANGUAGE_OPTIONS, selectedLanguage, LANGUAGE_OPTIONS[0])
  }

  /**
   * The picker's own state: whether the drop-down is open and what the
   * search box holds. Each method is one event the component handles.
   */
  class Picker {
    var isOpen: bool
    var searchQuery: string

    /** The component mounts closed, with an empty search. */
    constructor ()
      ensures !isOpen && searchQuery == ""
    {
      isOpen := false;
      searchQuery := "";
    }

    /** The languages the open drop-down lists. */
    function Listed(): seq<Language>
      reads this
    {
      FilteredLanguages(searchQuery)
    }

    /** A click on the button: ignored while disabled, otherwise toggles and clears the search. */
    method ClickButton(disabled: bool)
      modifies this
      ensures disabled ==> isOpen == old(isOpen) && searchQuery == old(searchQuery)
      ensures !disabled ==> isOpen == !old(isOpen) && searchQuery == ""
    {
      if !disabled {
        isOpen := !isOpen;
        searchQuery := "";
      }
    }

    /** Typing into the search box. */
    method Search(query: string)
      modifies this
      ensures searchQuery == query && isOpen == old(isOpen)
    {
      searchQuery := query;
    }

    /**
     * A click on a listed language: reports its code to the parent, closes
     * the drop-down and clears the search.
     */
    method Choose(lang: Language) returns (chosenCode: string)
      requires isOpen && lang in Listed()
      modifies this
      ensures chosenCode == lang.code
      ensures !isOpen && searchQuery == ""
    {
      chosenCode := lang.code;
      isOpen := false;
      searchQuery := "";
    }

    /** A mouse press outside the button and the drop-down closes it. */
    method ClickOutside()
      modifies this
      ensures !isOpen && searchQuery == old(searchQuery)
    {
      if isOpen {
        isOpen := false;
      }
    }

    /** The effect that runs on a change of `disabled`: a disabled picker does not stay open. */
    method SyncDisabled(disabled: bool)
      modifies this
      ensures isOpen == (old(isOpen) && !disabled) && searchQuery == old(searchQuery)
    {
      if disabled && isOpen {
        isOpen := false;
      }
    }
  }
}
