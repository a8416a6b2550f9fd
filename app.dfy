/**
 * The application's own logic: the favorite and mastered lists and their
 * toggles, the word-list filter and sort, the API-key status decision and
 * the progress percentage.
 */
module App {
  import opened Common
  import opened Text
  import AudioService

  datatype Level = A1 | A2 | B1 | B2 | C1

  function LevelName(l: Level): string {
    match l
    case A1 => "A1"
    case A2 => "A2"
    case B1 => "B1"
    case B2 => "B2"
    case C1 => "C1"
  }

  /** A catalog entry; the optional fields may be absent. */
  datatype Word = Word(
    word: string,
    level: Level,
    translation: Option<string>,
    phonetic: Option<string>,
    posEn: Option<string>,
    posTh: Option<string>)

  /** Which words the list shows. */
  datatype FilterMode = All | Favorites | Mastered | Unlearned

  // ---------------------------------------------------------------------------
  // Favorite / mastered lists

  /**
   * The toggle both lists use: a listed word loses every copy, the others
   * keeping their order; an unlisted word is appended.
   */
  function Toggle(list: seq<string>, word: string): (r: seq<string>)
    ensures word in r <==> word !in list
    ensures forall w :: w != word ==> (w in r <==> w in list)
    ensures word !in list ==> r == list + [word]
    ensures word in list ==> multiset(r) == multiset(list)[word := 0]
    ensures NoDuplicates(list) ==> NoDuplicates(r)
  {
    if word in list then
      RemoveMultiset(list, word);
      RemoveNoDuplicates(list, word);
      Remove(list, word)
    else
      assert NoDuplicates(list) ==> NoDuplicates(list + [word]);
      list + [word]
  }

  /**
   * Toggling a listed word off keeps the other words in order: at any split
   * point, the words kept from the front come before those kept from the back.
   */
  lemma ToggleOffKeepsOrder(list: seq<string>, word: string, k: nat)
    requires word in list && k <= |list|
    ensures Toggle(list, word) == Remove(list[..k], word) + Remove(list[k..], word)
  {
    RemoveAppend(list[..k], list[k..], word);
    assert list[..k] + list[k..] == list;
  }

  /** Toggling an unlisted word twice gives the list back. */
  lemma ToggleTwiceAbsent(list: seq<string>, word: string)
    requires word !in list
    ensures Toggle(Toggle(list, word), word) == list
  {
    RemoveAppend(list, [word], word);
    assert Remove([word], word) == [];
    assert list + [] == list;
  }

  /** Toggling a listed word twice moves it to the end, once. */
  lemma ToggleTwicePresent(list: seq<string>, word: string)
    requires word in list
    ensures Toggle(Toggle(list, word), word) == Remove(list, word) + [word]
  {
  }

  // ---------------------------------------------------------------------------
  // The word filter

  /**
   * `search.trim().toLowerCase()`: trimming and lowering commute, so the term
   * is the text the audio service normalises its cache keys from.
   */
  function SearchTerm(search: string): (term: string)
    ensures term == AudioService.NormalizedText(search)
  {
    TrimLowerCommute(search);
    ToLower(Trim(search))
  }

  /** A null or empty level selects every level; any other selects the words of that level only. */
  predicate MatchesLevel(w: Word, activeLevel: Option<string>): (b: bool)
    ensures activeLevel.None? || activeLevel == Some("") ==> b
    ensures activeLevel == Some(LevelName(w.level)) ==> b
    ensures b && activeLevel.Some? && activeLevel.value != "" ==> activeLevel.value == LevelName(w.level)
  {
    activeLevel.None? || activeLevel.value == "" || LevelName(w.level) == activeLevel.value
  }

  /** 'mastered' and 'unlearned' split the words by the mastered list; 'all' keeps every word. */
  predicate MatchesMode(w: Word, mode: FilterMode, favorites: seq<string>, mastered: seq<string>): (b: bool)
    ensures mode.All? ==> b
    ensures mode.Favorites? ==> (b <==> w.word in favorites)
    ensures mode.Mastered? || mode.Unlearned? ==> (b <==> (w.word in mastered <==> mode.Mastered?))
  {
    match mode
    case All => true
    case Favorites => w.word in favorites
    case Mastered => w.word in mastered
    case Unlearned => w.word !in mastered
  }

  /**
   * The lower-cased word contains the term, or the (non-empty) translation
   * does: the empty term matches every word, and a word without a
   * translation is found by its spelling alone.
   */
  predicate MatchesSearch(w: Word, term: string): (b: bool)
    ensures term == [] ==> b
    ensures Contains(ToLower(w.word), term) ==> b
    ensures w.translation.None? ==> (b <==> Contains(ToLower(w.word), term))
  {
    ContainsEmpty(ToLower(w.word));
    || Contains(ToLower(w.word), term)
    || (w.translation.Some? && w.translation.value != "" && Contains(w.translation.value, term))
  }

  /** The three tests of the filter callback; with no level, mode 'all' and the empty term every word passes. */
  predicate Matches(w: Word, term: string, activeLevel: Option<string>, mode: FilterMode,
                    favorites: seq<string>, mastered: seq<string>): (b: bool)
    ensures b ==> MatchesLevel(w, activeLevel) && MatchesMode(w, mode, favorites, mastered) && MatchesSearch(w, term)
    ensures (activeLevel.None? || activeLevel == Some("")) && mode.All? && term == [] ==> b
  {
    MatchesLevel(w, activeLevel) && MatchesMode(w, mode, favorites, mastered) && MatchesSearch(w, term)
  }

  /** `INITIAL_WORDS.filter(...)`: the matching entries, in catalog order. */
  function Matching(catalog: seq<Word>, term: string, activeLevel: Option<string>, mode: FilterMode,
                    favorites: seq<string>, mastered: seq<string>): (r: seq<Word>)
    ensures forall w :: w in r <==> w in catalog && Matches(w, term, activeLevel, mode, favorites, mastered)
    ensures |r| <= |catalog|
  {
    if catalog == [] then []
    else
      var rest := Matching(catalog[1..], term, activeLevel, mode, favorites, mastered);
      assert forall w :: w in catalog <==> w == catalog[0] || w in catalog[1..];
      if Matches(catalog[0], term, activeLevel, mode, favorites, mastered) then [catalog[0]] + rest else rest
  }

  /** `localeCompare` is taken as an abstract total preorder on words: `le(a, b)` iff `a.localeCompare(b) <= 0`. */
  ghost predicate TotalPreorder(le: (string, string) -> bool) {
    && (forall a, b :: le(a, b) || le(b, a))
    && (forall a, b, c :: le(a, b) && le(b, c) ==> le(a, c))
  }

  ghost predicate SortedByWord(ws: seq<Word>, le: (string, string) -> bool) {
    forall i, j :: 0 <= i < j < |ws| ==> le(ws[i].word, ws[j].word)
  }

  /** An entry that comes no later than the head of a sorted list can go in front of it. */
  lemma ConsSorted(a: Word, rest: seq<Word>, le: (string, string) -> bool)
    requires TotalPreorder(le) && SortedByWord(rest, le)
    requires rest != [] ==> le(a.word, rest[0].word)
    ensures SortedByWord([a] + rest, le)
  {
    var s := [a] + rest;
    forall i, j | 0 <= i < j < |s| ensures le(s[i].word, s[j].word) {
      if i == 0 && j > 1 {
        assert s[j] == rest[j - 1] && le(rest[0].word, rest[j - 1].word);
      }
    }
  }

  lemma SortedTail(ws: seq<Word>, le: (string, string) -> bool)
    requires ws != [] && SortedByWord(ws, le)
    ensures SortedByWord(ws[1..], le)
  {
    var tail := ws[1..];
    forall i, j | 0 <= i < j < |tail| ensures le(tail[i].word, tail[j].word) {
      assert tail[i] == ws[i + 1] && tail[j] == ws[j + 1];
    }
  }

  /** Puts `x` in front of the first entry it does not come after. */
  function Insert(x: Word, ws: seq<Word>, le: (string, string) -> bool): (r: seq<Word>)
    requires TotalPreorder(le) && SortedByWord(ws, le)
    ensures SortedByWord(r, le)
    ensures multiset(r) == multiset(ws) + multiset{x}
    ensures r[0] == x || (ws != [] && r[0] == ws[0])
  {
    if ws == [] then [x]
    else if le(x.word, ws[0].word) then
      ConsSorted(x, ws, le);
      [x] + ws
    else
      SortedTail(ws, le);
      var rest := Insert(x, ws[1..], le);
      assert le(ws[0].word, x.word);
      assert |ws| > 1 ==> le(ws[0].word, ws[1].word);
      ConsSorted(ws[0], rest, le);
      assert ws == [ws[0]] + ws[1..];
      [ws[0]] + rest
  }

  /** `.sort((a, b) => a.word.localeCompare(b.word))`: an insertion sort by the comparison. */
  function SortByWord(ws: seq<Word>, le: (string, string) -> bool): (r: seq<Word>)
    requires TotalPreorder(le)
    ensures SortedByWord(r, le)
    ensures multiset(r) == multiset(ws)
  {
    if ws == [] then []
    else
      assert ws == [ws[0]] + ws[1..];
      Insert(ws[0], SortByWord(ws[1..], le), le)
  }

  /** `filteredWords`: the matching catalog entries, sorted by word. */
  function FilteredWords(catalog: seq<Word>, search: string, activeLevel: Option<string>, mode: FilterMode,
                         favorites: seq<string>, mastered: seq<string>, le: (string, string) -> bool): (r: seq<Word>)
    requires TotalPreorder(le)
    ensures SortedByWord(r, le)
    ensures multiset(r) == multiset(Matching(catalog, SearchTerm(search), activeLevel, mode, favorites, mastered))
    ensures forall w :: w in r <==> w in catalog && Matches(w, SearchTerm(search), activeLevel, mode, favorites, mastered)
  {
    var r := SortByWord(Matching(catalog, SearchTerm(search), activeLevel, mode, favorites, mastered), le);
    assert forall w :: w in r <==> w in multiset(r);
    r
  }

  /** With no level, the 'all' view and a blank search, every catalog entry is listed, duplicates included. */
  lemma {:induction false} BlankSearchListsAll(catalog: seq<Word>, search: string,
                                               favorites: seq<string>, mastered: seq<string>, le: (string, string) -> bool)
    requires TotalPreorder(le)
    requires AllSpace(search)
    ensures multiset(FilteredWords(catalog, search, None, All, favorites, mastered, le)) == multiset(catalog)
  {
    TrimAllSpace(search);
    assert SearchTerm(search) == [];
    MatchingEverything(catalog, None, favorites, mastered);
  }

  lemma {:induction false} MatchingEverything(catalog: seq<Word>, activeLevel: Option<string>,
                                              favorites: seq<string>, mastered: seq<string>)
    requires activeLevel.None?
    ensures Matching(catalog, [], activeLevel, All, favorites, mastered) == catalog
  {
    if catalog != [] {
      ContainsEmpty(ToLower(catalog[0].word));
      MatchingEverything(catalog[1..], activeLevel, favorites, mastered);
      assert catalog == [catalog[0]] + catalog[1..];
    }
  }

  /**
   * For a fixed level and search, the 'mastered' and 'unlearned' views split
   * the 'all' view: together they hold each of its entries exactly as often,
   * and no entry is in both.
   */
  lemma ViewsPartition(catalog: seq<Word>, search: string, activeLevel: Option<string>,
                       favorites: seq<string>, mastered: seq<string>, le: (string, string) -> bool)
    requires TotalPreorder(le)
    ensures var all := FilteredWords(catalog, search, activeLevel, All, favorites, mastered, le);
      var done := FilteredWords(catalog, search, activeLevel, Mastered, favorites, mastered, le);
      var todo := FilteredWords(catalog, search, activeLevel, Unlearned, favorites, mastered, le);
      multiset(done) + multiset(todo) == multiset(all) && multiset(done) !! multiset(todo)
  {
    MatchingSplits(catalog, SearchTerm(search), activeLevel, favorites, mastered);
    MatchingDisjoint(catalog, SearchTerm(search), activeLevel, favorites, mastered);
  }

  lemma {:induction false} MatchingSplits(catalog: seq<Word>, term: string, activeLevel: Option<string>,
                                          favorites: seq<string>, mastered: seq<string>)
    ensures var done := Matching(catalog, term, activeLevel, Mastered, favorites, mastered);
      var todo := Matching(catalog, term, activeLevel, Unlearned, favorites, mastered);
      multiset(done) + multiset(todo) == multiset(Matching(catalog, term, activeLevel, All, favorites, mastered))
  {
    if catalog != [] {
      MatchingSplits(catalog[1..], term, activeLevel, favorites, mastered);
      MatchingCons(catalog, term, activeLevel, All, favorites, mastered);
      MatchingCons(catalog, term, activeLevel, Mastered, favorites, mastered);
      MatchingCons(catalog, term, activeLevel, Unlearned, favorites, mastered);
    }
  }

  /** No entry is both mastered and unlearned. */
  lemma MatchingDisjoint(catalog: seq<Word>, term: string, activeLevel: Option<string>,
                         favorites: seq<string>, mastered: seq<string>)
    ensures multiset(Matching(catalog, term, activeLevel, Mastered, favorites, mastered))
      !! multiset(Matching(catalog, term, activeLevel, Unlearned, favorites, mastered))
  {
    var done := Matching(catalog, term, activeLevel, Mastered, favorites, mastered);
    var todo := Matching(catalog, term, activeLevel, Unlearned, favorites, mastered);
    forall w | w in multiset(done) ensures w !in multiset(todo) {
      assert w in done;
    }
  }

  /** `filter` keeps or drops the head, then filters the tail. */
  lemma MatchingCons(catalog: seq<Word>, term: string, activeLevel: Option<string>, mode: FilterMode,
                     favorites: seq<string>, mastered: seq<string>)
    requires catalog != []
    ensures var head := if Matches(catalog[0], term, activeLevel, mode, favorites, mastered) then [catalog[0]] else [];
      Matching(catalog, term, activeLevel, mode, favorites, mastered)
        == head + Matching(catalog[1..], term, activeLevel, mode, favorites, mastered)
  {
  }

  // ---------------------------------------------------------------------------
  // API-key status

  /** What `window.aistudio` offers when the environment has no usable key. */
  datatype AiStudio =
    | NoAiStudio              // window.aistudio is absent
    | NoKeyQuery              // present, but hasSelectedApiKey is not a function
    | Answers(selected: bool) // hasSelectedApiKey() resolved
    | QueryFails              // hasSelectedApiKey() rejected

  /**
   * The key read from the environment is present and is not one of the
   * placeholders '', 'undefined', 'null': the audio service accepts the same keys.
   */
  predicate EnvKeyValid(envKey: Option<string>): (valid: bool)
    ensures valid <==> AudioService.GetValidApiKey(envKey).Some?
  {
    envKey.Some? && envKey.value != "undefined" && envKey.value != "" && envKey.value != "null"
  }

  /**
   * `checkApiKey`: the value it stores with `setHasApiKey`. A throwing
   * environment read, like a rejected AI Studio query, lands in the catch
   * and counts as having a key.
   */
  function ApiKeyStatus(env: EnvRead, studio: AiStudio): (hasKey: bool)
    ensures env.EnvThrows? ==> hasKey
    ensures env.EnvValue? && EnvKeyValid(env.key) ==> hasKey
    ensures studio.QueryFails? ==> hasKey
    ensures !hasKey <==>
      && env.EnvValue? && !EnvKeyValid(env.key)
      && (studio.NoAiStudio? || studio.NoKeyQuery? || studio == Answers(false))
  {
    match env
    case EnvThrows => true
    case EnvValue(envKey) =>
      if EnvKeyValid(envKey) then true
      else match studio
        case NoAiStudio => false
        case NoKeyQuery => false
        case Answers(selected) => selected
        case QueryFails => true
  }

  // ---------------------------------------------------------------------------
  // Progress

  /** `Math.round((mastered.length / 3000) * 100)` in exact arithmetic: the nearest integer, halves rounded up. */
  function ProgressPercentage(masteredCount: nat): (p: nat)
    ensures 6000 * p - 3000 <= 200 * masteredCount < 6000 * p + 3000
  {
    (masteredCount + 15) / 30
  }

  // ---------------------------------------------------------------------------
  // The component's state cells

  /** The `favorites`, `mastered` and `hasApiKey` state cells of the App component. */
  class AppState {
    var favorites: seq<string>
    var mastered: seq<string>
    var hasApiKey: bool

    /** The lists as read back from local storage; the key counts as present until checked. */
    constructor (savedFavorites: seq<string>, savedMastered: seq<string>)
      ensures favorites == savedFavorites && mastered == savedMastered && hasApiKey
    {
      favorites := savedFavorites;
      mastered := savedMastered;
      hasApiKey := true;
    }

    method ToggleFavorite(word: string)
      modifies this
      ensures favorites == Toggle(old(favorites), word)
      ensures mastered == old(mastered) && hasApiKey == old(hasApiKey)
    {
      favorites := Toggle(favorites, word);
    }

    method ToggleMastered(word: string)
      modifies this
      ensures mastered == Toggle(old(mastered), word)
      ensures favorites == old(favorites) && hasApiKey == old(hasApiKey)
    {
      mastered := Toggle(mastered, word);
    }

    method CheckApiKey(env: EnvRead, studio: AiStudio)
      modifies this
      ensures hasApiKey == ApiKeyStatus(env, studio)
      ensures favorites == old(favorites) && mastered == old(mastered)
    {
      hasApiKey := ApiKeyStatus(env, studio);
    }
  }
}
