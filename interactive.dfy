/**
 * The small state machines of the portfolio page, with the DOM reduced to
 * the fields they write: the theme switcher, the exclusive skill
 * accordion, the rotating typed subtitle and the blog card search.
 */
module Interactive {
  import opened JsBase

  // ---------------------------------------------------------------------
  // Theme switcher
  // ---------------------------------------------------------------------

  const THEME_KEY: string := "theme"
  const DARK: string := "dark"
  const LIGHT: string := "light"
  const MOON_ICON: string := "fas fa-moon"
  const SUN_ICON: string := "fas fa-sun"

  /** `localStorage.getItem('theme') || 'dark'`. */
  function InitialTheme(storage: map<string, string>): (theme: string)
    ensures THEME_KEY in storage && storage[THEME_KEY] != "" ==> theme == storage[THEME_KEY]
    ensures THEME_KEY !in storage || storage[THEME_KEY] == "" ==> theme == DARK
  {
    if THEME_KEY in storage && storage[THEME_KEY] != "" then storage[THEME_KEY] else DARK
  }

  /** The click handler's rule: dark becomes light, anything else becomes dark. */
  function Toggled(theme: string): (next: string)
    ensures next == DARK || next == LIGHT
    ensures next == LIGHT <==> theme == DARK
  {
    if theme == DARK then LIGHT else DARK
  }

  /** `updateIcon`: the moon for the dark theme, the sun otherwise. */
  function IconFor(theme: string): (icon: string)
    ensures icon == MOON_ICON || icon == SUN_ICON
    ensures icon == MOON_ICON <==> theme == DARK
  {
    if theme == DARK then MOON_ICON else SUN_ICON
  }

  /** Two clicks from dark or light come back to where they started. */
  lemma ToggleTwice(theme: string)
    requires theme == DARK || theme == LIGHT
    ensures Toggled(Toggled(theme)) == theme
  {
    assert DARK != LIGHT by { assert DARK[0] != LIGHT[0]; }
  }

  /** From a stored value that is neither, the first click gives dark and two clicks give light. */
  lemma ToggleFromOther(theme: string)
    requires theme != DARK && theme != LIGHT
    ensures Toggled(theme) == DARK && Toggled(Toggled(theme)) == LIGHT
  {
  }

  /** The theme switcher of a page that has a `themeToggle` button. */
  class ThemeSwitcher {
    var currentTheme: string
    /** `localStorage`. */
    var storage: map<string, string>
    /** The `data-theme` attribute of the document element. */
    var dataTheme: string
    /** `className` of the button's icon. */
    var icon: string
    /** Whether the button carries the `light-mode` class. */
    var lightMode: bool

    /** The page shows the current theme everywhere. */
    ghost predicate Valid()
      reads this
    {
      dataTheme == currentTheme && icon == IconFor(currentTheme) && lightMode == (currentTheme == LIGHT)
    }

    /** `new ThemeSwitcher()` followed by `init`. */
    constructor (storage: map<string, string>)
      ensures Valid() && currentTheme == InitialTheme(storage) && this.storage == storage
    {
      var theme := InitialTheme(storage);
      currentTheme, this.storage := theme, storage;
      dataTheme, icon, lightMode := theme, IconFor(theme), theme == LIGHT;
    }

    /** A click on the toggle: switch, show and persist the new theme. */
    method Toggle()
      requires Valid()
      modifies this
      ensures Valid()
      ensures currentTheme == Toggled(old(currentTheme))
      ensures storage == old(storage)[THEME_KEY := currentTheme]
    {
      currentTheme := if currentTheme == DARK then LIGHT else DARK;
      dataTheme := currentTheme;
      storage := storage[THEME_KEY := currentTheme];
      icon := if currentTheme == DARK then MOON_ICON else SUN_ICON;
      lightMode := currentTheme == LIGHT;
    }
  }

  // ---------------------------------------------------------------------
  // Skill bars
  // ---------------------------------------------------------------------

  /** The `active` flags after a click on category `k`: only `k`, and only if it was not active. */
  function Expanded(flags: seq<bool>, k: nat): (r: seq<bool>)
    requires k < |flags|
    ensures |r| == |flags|
    // a click on the active category closes every category
    ensures flags[k] ==> forall i :: 0 <= i < |r| ==> !r[i]
    // a click on an inactive one opens exactly it
    ensures !flags[k] ==> forall i :: 0 <= i < |r| ==> (r[i] <==> i == k)
  {
    seq(|flags|, i requires 0 <= i < |flags| => i == k && !flags[k])
  }

  /** After any click, at most one category is active. */
  lemma ExpandedAtMostOne(flags: seq<bool>, k: nat)
    requires k < |flags|
    ensures forall i, j :: 0 <= i < j < |flags| ==> !(Expanded(flags, k)[i] && Expanded(flags, k)[j])
  {
  }

  /** Two clicks on the same category: if it was open, it ends open and alone; if it was closed, every category ends closed. */
  lemma ExpandedTwice(flags: seq<bool>, k: nat)
    requires k < |flags|
    ensures Expanded(Expanded(flags, k), k) == if flags[k] then Expanded(flags, k)[k := true] else seq(|flags|, i => false)
  {
  }

  /** The skill categories of the page, with their `active` class as a flag. */
  class SkillBars {
    const active: array<bool>

    /** `new SkillBars()` on a page whose categories carry the `active` classes `initial`, which it leaves as they are. */
    constructor (initial: seq<bool>)
      ensures fresh(active) && active[..] == initial
    {
      active := new bool[|initial|](i requires 0 <= i < |initial| => initial[i]);
    }

    /** `expandSkillDetails(category)`: clear every category, then open the clicked one if it was closed. */
    method ExpandSkillDetails(k: nat)
      requires k < active.Length
      modifies active
      ensures active[..] == Expanded(old(active[..]), k)
    {
      var wasActive := active[k];
      var i := 0;
      while i < active.Length
        invariant 0 <= i <= active.Length
        invariant forall j :: 0 <= j < i ==> !active[j]
        invariant forall j :: i <= j < active.Length ==> active[j] == old(active[j])
      {
        active[i] := false;
        i := i + 1;
      }
      if !wasActive {
        active[k] := true;
      }
    }
  }

  // ---------------------------------------------------------------------
  // Typing effect
  // ---------------------------------------------------------------------

  /** The index after one rotation step. */
  function NextIndex(i: nat, count: nat): (j: nat)
    requires count > 0
    ensures j < count
  {
    (i + 1) % count
  }

  /** The index after `n` rotation steps with the titles unchanged. */
  function IndexAfter(i: nat, n: nat, count: nat): (j: nat)
    requires count > 0
    ensures j < count || (n == 0 && j == i)
  {
    if n == 0 then i else NextIndex(IndexAfter(i, n - 1, count), count)
  }

  /** One step moves to the next title, and from the last title back to the first. */
  lemma NextIndexWraps(i: nat, count: nat)
    requires i < count
    ensures NextIndex(i, count) == if i + 1 == count then 0 else i + 1
  {
  }

  /**
   * With the titles unchanged, `n` steps from a valid index move `n`
   * titles on, wrapping past the last one at most once for `n <= count`.
   */
  lemma {:induction false} IndexAfterWraps(i: nat, n: nat, count: nat)
    requires i < count && n <= count
    ensures IndexAfter(i, n, count) == if i + n < count then i + n else i + n - count
  {
    if n > 0 {
      IndexAfterWraps(i, n - 1, count);
      NextIndexWraps(IndexAfter(i, n - 1, count), count);
    }
  }

  /** From the first title, the rotation shows every title in order and then returns to the first. */
  lemma RotationVisitsAll(count: nat)
    requires count > 0
    ensures forall n :: 0 <= n < count ==> IndexAfter(0, n, count) == n
    ensures IndexAfter(0, count, count) == 0
  {
    forall n | 0 <= n <= count ensures IndexAfter(0, n, count) == if n < count then n else 0 {
      IndexAfterWraps(0, n, count);
    }
  }

  /** Whether `updateTitles(newTitles)` takes the new titles: only a non-empty array. */
  function Accepted(newTitles: Option<seq<string>>): (b: bool)
    ensures b ==> newTitles.Some? && newTitles.value != []
    ensures newTitles.Some? && newTitles.value != [] ==> b
  {
    newTitles.Some? && |newTitles.value| > 0
  }

  /**
   * The titles after the `updateTitles` calls `updates`, in order, starting
   * from `titles`: each accepted array replaces the titles before it.
   */
  function TitlesAfter(titles: seq<string>, updates: seq<Option<seq<string>>>): (r: seq<string>)
    ensures |titles| > 0 ==> |r| > 0
    decreases |updates|
  {
    if updates == [] then titles
    else if Accepted(updates[|updates| - 1]) then updates[|updates| - 1].value
    else TitlesAfter(titles, updates[..|updates| - 1])
  }

  /** The titles after a run of updates are the last accepted array of the run. */
  lemma {:induction false} TitlesAfterLastAccepted(titles: seq<string>, updates: seq<Option<seq<string>>>, k: nat)
    requires k < |updates| && Accepted(updates[k])
    requires forall j :: k < j < |updates| ==> !Accepted(updates[j])
    ensures TitlesAfter(titles, updates) == updates[k].value
    decreases |updates|
  {
    if k < |updates| - 1 {
      var front := updates[..|updates| - 1];
      assert forall j :: k < j < |front| ==> front[j] == updates[j];
      TitlesAfterLastAccepted(titles, front, k);
    }
  }

  /** A run of updates none of which is accepted keeps the titles. */
  lemma {:induction false} TitlesAfterNoneAccepted(titles: seq<string>, updates: seq<Option<seq<string>>>)
    requires forall j :: 0 <= j < |updates| ==> !Accepted(updates[j])
    ensures TitlesAfter(titles, updates) == titles
    decreases |updates|
  {
    if updates != [] {
      var front := updates[..|updates| - 1];
      assert forall j :: 0 <= j < |front| ==> front[j] == updates[j];
      TitlesAfterNoneAccepted(titles, front);
    }
  }

  /** The rotating subtitle of the hero section. */
  class TypingEffect {
    var titles: seq<string>
    var currentIndex: nat

    /** There is always a title to rotate through. */
    ghost predicate Valid()
      reads this
    {
      |titles| > 0
    }

    /** `new TypingEffect()` with its four default titles. */
    constructor ()
      ensures Valid() && currentIndex == 0 && currentIndex < |titles|
      ensures titles == ["Software Engineer", "Backend Developer", "Database Architect", "Full Stack Developer"]
    {
      titles := ["Software Engineer", "Backend Developer", "Database Architect", "Full Stack Developer"];
      currentIndex := 0;
    }

    /**
     * One cycle of `typeAndDelete`: the texts the subtitle shows while the
     * current title is typed (lengths 0 up to its length) and deleted
     * (its length down to 0), in order.
     */
    method TypeAndDelete() returns (frames: seq<string>)
      requires Valid() && currentIndex < |titles|
      ensures var t := titles[currentIndex];
              && |frames| == 2 * (|t| + 1)
              && (forall k :: 0 <= k <= |t| ==> frames[k] == t[..k])
              && (forall k :: 0 <= k <= |t| ==> frames[2 * |t| + 1 - k] == t[..k])
    {
      var t := titles[currentIndex];
      frames := [];
      var i := 0;
      while i <= |t|
        invariant 0 <= i <= |t| + 1 && |frames| == i
        invariant forall k :: 0 <= k < i ==> frames[k] == t[..k]
      {
        frames := frames + [t[..i]];
        i := i + 1;
      }
      var j: int := |t|;
      while j >= 0
        invariant -1 <= j <= |t| && |frames| == 2 * |t| + 1 - j
        invariant forall k :: 0 <= k <= |t| ==> frames[k] == t[..k]
        invariant forall k :: j < k <= |t| ==> frames[2 * |t| + 1 - k] == t[..k]
      {
        frames := frames + [t[..j]];
        j := j - 1;
      }
    }

    /** The step at the end of each cycle: `(currentIndex + 1) % titles.length`. */
    method Advance()
      requires Valid()
      modifies this
      ensures Valid() && titles == old(titles)
      ensures currentIndex == NextIndex(old(currentIndex), |titles|) && currentIndex < |titles|
    {
      currentIndex := (currentIndex + 1) % |titles|;
    }

    /** `updateTitles(newTitles)`: only a non-empty array is taken, and the index is kept. */
    method UpdateTitles(newTitles: Option<seq<string>>)
      requires Valid()
      modifies this
      ensures Valid() && currentIndex == old(currentIndex)
      ensures titles == if newTitles.Some? && |newTitles.value| > 0 then newTitles.value else old(titles)
    {
      if newTitles.Some? && |newTitles.value| > 0 {
        titles := newTitles.value;
      }
    }

    /**
     * One turn of the `while (true)` loop. Updates of the titles can only
     * arrive while it sleeps, before the index step; the step then
     * reduces modulo the new length, so the next turn finds a title.
     */
    method Cycle(updates: seq<Option<seq<string>>>) returns (frames: seq<string>)
      requires Valid() && currentIndex < |titles|
      modifies this
      ensures Valid() && currentIndex < |titles|
      // the frames type and delete the title the turn started with
      ensures var t := old(titles)[old(currentIndex)];
              && |frames| == 2 * (|t| + 1)
              && (forall k :: 0 <= k <= |t| ==> frames[k] == t[..k])
              && (forall k :: 0 <= k <= |t| ==> frames[2 * |t| + 1 - k] == t[..k])
      ensures titles == TitlesAfter(old(titles), updates)
      // the step is taken modulo the length of the titles as they are now
      ensures currentIndex == NextIndex(old(currentIndex), |titles|)
    {
      frames := TypeAndDelete();
      var u := 0;
      while u < |updates|
        invariant 0 <= u <= |updates| && Valid()
        invariant titles == TitlesAfter(old(titles), updates[..u])
        invariant currentIndex == old(currentIndex)
      {
        assert updates[..u + 1][..u] == updates[..u];
        UpdateTitles(updates[u]);
        u := u + 1;
      }
      assert updates[..u] == updates;
      Advance();
    }
  }

  // ---------------------------------------------------------------------
  // Blog search
  // ---------------------------------------------------------------------

  /** A blog card: its `data-title-key`, `data-desc-key` and `data-tags` attributes and its `style.display`. */
  datatype Card = Card(titleKey: Option<string>, descKey: Option<string>, tags: Option<string>, display: string)

  /** A lowered text, or the `TypeError` of calling `toLowerCase` on what `t` gave when that is not a string. */
  datatype Lowered = Lowered(text: string) | TypeError

  /** What the search shows a card as: `display = ''` or `display = 'none'`, or the throw that ends the search. */
  datatype Verdict = Display(value: string) | Thrown

  const HIDDEN: string := "none"

  /** `searchInput.value.toLowerCase().trim()`. */
  function SearchTerm(input: string): (term: string)
    ensures term == "" <==> forall k :: 0 <= k < |input| ==> IsJsWhitespace(input[k])
  {
    var lower := ToLowerCase(input);
    assert forall k :: 0 <= k < |input| ==> (IsJsWhitespace(lower[k]) <==> IsJsWhitespace(input[k]));
    Trim(lower)
  }

  /** `key ? window.i18n.t(key).toLowerCase() : ''`; `tr` is the translation function of the page, `None` where it gives no string. */
  function LoweredText(key: Option<string>, tr: string -> Option<string>): (r: Lowered)
    ensures key.None? || key.value == "" ==> r == Lowered("")
    ensures key.Some? && key.value != "" ==> (r.TypeError? <==> tr(key.value).None?)
    ensures key.Some? && key.value != "" && tr(key.value).Some? ==> r == Lowered(ToLowerCase(tr(key.value).value))
  {
    if key.None? || key.value == "" then Lowered("")
    else if tr(key.value).None? then TypeError
    else Lowered(ToLowerCase(tr(key.value).value))
  }

  /** `matchesSearch`: an empty term matches everything, any other must occur in the title, description or tags. */
  function MatchesSearch(term: string, title: string, description: string, tags: string): (b: bool)
    ensures b <==> term == "" || (exists i :: OccursAt(title, term, i)) ||
                   (exists i :: OccursAt(description, term, i)) || (exists i :: OccursAt(tags, term, i))
  {
    term == "" || Includes(title, term) || Includes(description, term) || Includes(tags, term)
  }

  /** The search's treatment of one card. */
  function CardVerdict(card: Card, term: string, tr: string -> Option<string>): (v: Verdict)
    ensures v == Thrown <==> LoweredText(card.titleKey, tr).TypeError? || LoweredText(card.descKey, tr).TypeError?
    ensures v.Display? ==> (v.value == "" || v.value == HIDDEN)
    // shown exactly when the term is empty or occurs in the lowered title, description or tags
    ensures v.Display? ==>
              (v.value == "" <==>
                 || term == ""
                 || Includes(LoweredText(card.titleKey, tr).text, term)
                 || Includes(LoweredText(card.descKey, tr).text, term)
                 || Includes(ToLowerCase(if card.tags.Some? then card.tags.value else ""), term))
  {
    var title := LoweredText(card.titleKey, tr);
    var description := LoweredText(card.descKey, tr);
    if title.TypeError? || description.TypeError? then Thrown
    else
      var tags := ToLowerCase(if card.tags.Some? then card.tags.value else "");
      if MatchesSearch(term, title.text, description.text, tags) then Display("") else Display(HIDDEN)
  }

  /** A card as the search leaves it when it does not throw. */
  function Searched(card: Card, term: string, tr: string -> Option<string>): (r: Card)
    ensures r.(display := card.display) == card
    ensures CardVerdict(card, term, tr).Display? ==> r.display == CardVerdict(card, term, tr).value
    ensures !CardVerdict(card, term, tr).Display? ==> r == card
  {
    var v := CardVerdict(card, term, tr);
    if v.Display? then card.(display := v.value) else card
  }

  /** A blank or whitespace-only search shows every card that does not throw. */
  lemma BlankSearchShowsAll(input: string, card: Card, tr: string -> Option<string>)
    requires forall k :: 0 <= k < |input| ==> IsJsWhitespace(input[k])
    requires CardVerdict(card, SearchTerm(input), tr) != Thrown
    ensures CardVerdict(card, SearchTerm(input), tr) == Display("")
  {
    var lower := ToLowerCase(input);
    forall k | 0 <= k < |lower| ensures IsJsWhitespace(lower[k]) {
      assert lower[k] == LowerChar(input[k]);
    }
  }

  /** The search ignores the case of what is typed. */
  lemma SearchIgnoresCase(input: string)
    ensures SearchTerm(ToLowerCase(input)) == SearchTerm(input)
  {
    LowerIdempotent(input);
  }

  /** A card with no keys and no tags shows only for an empty term: missing attributes contribute `''`. */
  lemma BareCardShowsOnlyForEmptyTerm(term: string, display: string, tr: string -> Option<string>)
    ensures CardVerdict(Card(None, None, None, display), term, tr) == (if term == "" then Display("") else Display(HIDDEN))
  {
    IncludesInEmpty(term);
  }

  /** A term written in the tags, in any case, shows the card. */
  lemma TagMatchShows(card: Card, input: string, tr: string -> Option<string>)
    requires card.tags.Some? && Includes(ToLowerCase(card.tags.value), SearchTerm(input))
    requires CardVerdict(card, SearchTerm(input), tr) != Thrown
    ensures CardVerdict(card, SearchTerm(input), tr) == Display("")
  {
  }

  /** The blog listing: its cards in document order. */
  class BlogSearch {
    var cards: seq<Card>

    constructor (cards: seq<Card>)
      ensures this.cards == cards
    {
      this.cards := cards;
    }

    /**
     * `applySearch()`: set every card's display from the search term. A
     * `TypeError` in the callback ends the `forEach`: the cards before it
     * are updated, it and those after keep their display. `done` counts
     * the cards handled.
     */
    method ApplySearch(input: string, tr: string -> Option<string>) returns (done: nat)
      modifies this
      ensures done <= |cards| == |old(cards)|
      ensures forall k :: 0 <= k < done ==> CardVerdict(old(cards)[k], SearchTerm(input), tr) != Thrown
      ensures forall k :: 0 <= k < done ==> cards[k] == Searched(old(cards)[k], SearchTerm(input), tr)
      ensures done < |cards| ==> CardVerdict(old(cards)[done], SearchTerm(input), tr) == Thrown
      ensures forall k :: done <= k < |cards| ==> cards[k] == old(cards)[k]
    {
      var term := SearchTerm(input);
      done := ForEachCard(card => CardVerdict(card, term, tr));
    }

    /**
     * `blogCards.forEach(callback)` for a callback that decides each card's
     * display; a throw of the callback ends the iteration early.
     */
    method ForEachCard(callback: Card -> Verdict) returns (done: nat)
      modifies this
      ensures done <= |cards| == |old(cards)|
      ensures forall k :: 0 <= k < done ==> callback(old(cards)[k]).Display?
      ensures forall k :: 0 <= k < done ==> cards[k] == old(cards)[k].(display := callback(old(cards)[k]).value)
      ensures done < |cards| ==> callback(old(cards)[done]) == Thrown
      ensures forall k :: done <= k < |cards| ==> cards[k] == old(cards)[k]
    {
      var cs := cards;
      done := 0;
      while done < |cs|
        invariant done <= |cs| == |cards|
        invariant forall k :: 0 <= k < done ==> callback(cards[k]).Display?
        invariant forall k :: 0 <= k < done ==> cs[k] == cards[k].(display := callback(cards[k]).value)
        invariant forall k :: done <= k < |cs| ==> cs[k] == cards[k]
      {
        var verdict := callback(cs[done]);
        if verdict.Thrown? {
          break;
        }
        cs := cs[done := cs[done].(display := verdict.value)];
        done := done + 1;
      }
      cards := cs;
    }
  }
}
