/**
 * The translation layer of the blog article pages: `BlogArticleI18n`
 * with its dotted-path lookup `t`, the guarded `setLanguage`, the
 * `languageChanged` listener and the "only if truthy" rule by which
 * `applyTranslations` rewrites the marked elements.
 */
module BlogArticle {
  import opened JsBase

  /** A translation dictionary: a string, or an object of named sub-dictionaries. */
  datatype Tree = Leaf(text: string) | Node(fields: map<string, Tree>)

  /** What a JavaScript property access can give here: `undefined`, `null` or a dictionary value. */
  datatype Value = Undefined | Null | Found(tree: Tree)

  /** `localStorage` key of the chosen language. */
  const PREFERRED_LANGUAGE: string := "preferredLanguage"
  /** Language used when none is stored. */
  const DEFAULT_LANG: string := "it"
  /** `String(o)` for a plain object `o`. */
  const OBJECT_STRING: string := "[object Object]"

  /** JavaScript truthiness: objects are truthy, strings when non-empty, `undefined` and `null` never. */
  function Truthy(v: Value): (b: bool)
    ensures b ==> v.Found?
    ensures v.Found? && v.tree.Node? ==> b
  {
    v.Found? && (v.tree.Node? || v.tree.text != "")
  }

  /** `obj[key]` on a dictionary object. */
  function Child(fields: map<string, Tree>, key: string): (v: Value)
    ensures key in fields ==> v == Found(fields[key])
    ensures key !in fields ==> v == Undefined
  {
    if key in fields then Found(fields[key]) else Undefined
  }

  /**
   * The loop of `t` on the keys still to visit: descend one key while the
   * value is an object, give `null` on the first key that meets anything
   * else, and give whatever was reached once the keys run out.
   */
  function Walk(v: Value, keys: seq<string>): (r: Value)
    // a dead end is never left
    ensures v == Null ==> r == Null
    // only an object can be descended into: from anything else a key gives `null`
    ensures keys != [] && r != Null ==> v.Found? && v.tree.Node?
    decreases |keys|
  {
    if keys == [] then v
    else if v.Found? && v.tree.Node? then Walk(Child(v.tree.fields, keys[0]), keys[1..])
    else Null
  }

  /** `t(path)` for the dictionaries `translations` and the language `lang`. */
  function Resolve(translations: map<string, Tree>, lang: string, path: string): (r: Value)
    ensures r != Null ==> lang in translations && translations[lang].Node?
  {
    Walk(Child(translations, lang), Split(path, '.'))
  }

  /** `String(v)` of a truthy translation, as an assignment to `textContent` and the like produces it. */
  function ToText(t: Tree): (s: string)
    ensures t.Leaf? ==> s == t.text
    ensures t.Node? ==> s == OBJECT_STRING
    ensures Truthy(Found(t)) ==> s != ""
  {
    match t
    case Leaf(text) => text
    case Node(_) => OBJECT_STRING
  }

  /** `localStorage.getItem('preferredLanguage') || 'it'`. */
  function InitialLanguage(storage: map<string, string>): (lang: string)
    ensures PREFERRED_LANGUAGE in storage && storage[PREFERRED_LANGUAGE] != "" ==> lang == storage[PREFERRED_LANGUAGE]
    ensures PREFERRED_LANGUAGE !in storage || storage[PREFERRED_LANGUAGE] == "" ==> lang == DEFAULT_LANG
  {
    if PREFERRED_LANGUAGE in storage && storage[PREFERRED_LANGUAGE] != "" then storage[PREFERRED_LANGUAGE]
    else DEFAULT_LANG
  }

  /** Descending along `a + b` is descending along `a`, then along `b`: one key per segment, in order. */
  lemma {:induction false} WalkAppend(v: Value, a: seq<string>, b: seq<string>)
    ensures Walk(v, a + b) == Walk(Walk(v, a), b)
    decreases |a|
  {
    if a == [] {
      assert a + b == b;
    } else if v.Found? && v.tree.Node? {
      assert (a + b)[1..] == a[1..] + b;
      WalkAppend(Child(v.tree.fields, a[0]), a[1..], b);
    } else {
      NullAbsorbs(b);
    }
  }

  /** Once `null`, always `null`: the loop of `t` never recovers from a dead end. */
  lemma NullAbsorbs(keys: seq<string>)
    ensures Walk(Null, keys) == Null
  {
  }

  /** A value that is not an object stops the walk with `null` while keys remain. */
  lemma DeadEndGivesNull(v: Value, keys: seq<string>)
    requires keys != [] && !(v.Found? && v.tree.Node?)
    ensures Walk(v, keys) == Null
  {
  }

  /**
   * `t` on dotted segments without dots descends exactly those segments
   * from `translations[lang]`, one key per segment, in order.
   */
  lemma ResolveSegments(translations: map<string, Tree>, lang: string, parts: seq<string>)
    requires |parts| >= 1
    requires forall k :: 0 <= k < |parts| ==> '.' !in parts[k]
    ensures Resolve(translations, lang, Join(parts, '.')) == Walk(Child(translations, lang), parts)
  {
    SplitJoin(parts, '.');
  }

  /** Two segments: `t("a.b")` is `translations[lang][a][b]` when both levels are objects holding the keys. */
  lemma ResolveTwoLevels(translations: map<string, Tree>, lang: string, a: string, b: string)
    requires '.' !in a && '.' !in b
    requires lang in translations && translations[lang].Node?
    requires a in translations[lang].fields && translations[lang].fields[a].Node?
    requires b in translations[lang].fields[a].fields
    ensures Resolve(translations, lang, a + "." + b) == Found(translations[lang].fields[a].fields[b])
  {
    assert Join([a, b], '.') == a + "." + b;
    ResolveSegments(translations, lang, [a, b]);
    var second := translations[lang].fields[a];
    assert [a, b][1..] == [b] && [b][1..] == [];
    assert Walk(Child(translations, lang), [a, b]) == Walk(Found(second), [b]);
    assert Walk(Found(second), [b]) == Walk(Found(second.fields[b]), []);
  }

  /** For a language without dictionaries, every path gives `null`, so nothing is ever rewritten. */
  lemma UnknownLanguageResolvesToNull(translations: map<string, Tree>, lang: string, path: string)
    requires lang !in translations
    ensures Resolve(translations, lang, path) == Null
  {
  }

  /**
   * The last key may be missing: when the segments before it lead to an
   * object without that key, `t` gives `undefined`, not `null`.
   */
  lemma MissingLastKeyIsUndefined(translations: map<string, Tree>, lang: string, parts: seq<string>,
                                  last: string, m: map<string, Tree>)
    requires forall k :: 0 <= k < |parts| ==> '.' !in parts[k]
    requires '.' !in last
    requires Walk(Child(translations, lang), parts) == Found(Node(m)) && last !in m
    ensures Resolve(translations, lang, Join(parts + [last], '.')) == Undefined
  {
    var keys := parts + [last];
    assert forall k :: 0 <= k < |keys| ==> '.' !in keys[k] by {
      forall k | 0 <= k < |keys| ensures '.' !in keys[k] {
        if k < |parts| { assert keys[k] == parts[k]; } else { assert keys[k] == last; }
      }
    }
    ResolveSegments(translations, lang, keys);
    WalkAppend(Child(translations, lang), parts, [last]);
    assert [last][1..] == [];
  }

  /** The three attributes `applyTranslations` serves. */
  datatype Attr = TextAttr | PlaceholderAttr | TitleAttr

  /** The element content, set through `textContent` or, for `data-i18n-html` elements, `innerHTML`. */
  datatype Content = Text(text: string) | Html(html: string)

  /**
   * A document element as `applyTranslations` sees it: its `data-i18n`,
   * `data-i18n-html`, `data-i18n-placeholder` and `data-i18n-title`
   * attributes and the three properties it may overwrite.
   */
  datatype Element = Element(
    i18n: Option<string>, asHtml: bool, placeholderKey: Option<string>, titleKey: Option<string>,
    content: Content, placeholder: string, title: string)

  /** The key an element carries for an attribute, if it is selected for it at all. */
  function KeyOf(e: Element, attr: Attr): Option<string> {
    match attr
    case TextAttr => e.i18n
    case PlaceholderAttr => e.placeholderKey
    case TitleAttr => e.titleKey
  }

  /** The string written for an element and attribute, or `None` when the translation is falsy. */
  function Translation(translations: map<string, Tree>, lang: string, key: Option<string>): (r: Option<string>)
    ensures r.Some? <==> key.Some? && Truthy(Resolve(translations, lang, key.value))
    ensures r.Some? ==> r.value != "" && r.value == ToText(Resolve(translations, lang, key.value).tree)
  {
    if key.Some? && Truthy(Resolve(translations, lang, key.value)) then
      Some(ToText(Resolve(translations, lang, key.value).tree))
    else
      None
  }

  /** Writes `text` to the property that `attr` names. */
  function Write(e: Element, attr: Attr, text: string): (r: Element)
    ensures KeyOf(r, TextAttr) == KeyOf(e, TextAttr) && r.asHtml == e.asHtml
    ensures KeyOf(r, PlaceholderAttr) == KeyOf(e, PlaceholderAttr) && KeyOf(r, TitleAttr) == KeyOf(e, TitleAttr)
    ensures attr == TextAttr ==> r.content == (if e.asHtml then Html(text) else Text(text))
    ensures attr != TextAttr ==> r.content == e.content
    ensures r.placeholder == (if attr == PlaceholderAttr then text else e.placeholder)
    ensures r.title == (if attr == TitleAttr then text else e.title)
  {
    match attr
    case TextAttr => e.(content := if e.asHtml then Html(text) else Text(text))
    case PlaceholderAttr => e.(placeholder := text)
    case TitleAttr => e.(title := text)
  }

  /** One `querySelectorAll(...).forEach` pass on one element: overwrite only with a truthy translation. */
  function Pass(e: Element, attr: Attr, translations: map<string, Tree>, lang: string): (r: Element)
    ensures r.i18n == e.i18n && r.asHtml == e.asHtml && r.placeholderKey == e.placeholderKey && r.titleKey == e.titleKey
    ensures Translation(translations, lang, KeyOf(e, attr)).None? ==> r == e
    ensures attr != TextAttr ==> r.content == e.content
    ensures attr != PlaceholderAttr ==> r.placeholder == e.placeholder
    ensures attr != TitleAttr ==> r.title == e.title
  {
    var text := Translation(translations, lang, KeyOf(e, attr));
    if text.Some? then Write(e, attr, text.value) else e
  }

  /** An element after the text, placeholder and title passes of `applyTranslations`. */
  function Localized(e: Element, translations: map<string, Tree>, lang: string): (r: Element)
    ensures r.i18n == e.i18n && r.asHtml == e.asHtml && r.placeholderKey == e.placeholderKey && r.titleKey == e.titleKey
  {
    Pass(Pass(Pass(e, TextAttr, translations, lang), PlaceholderAttr, translations, lang), TitleAttr, translations, lang)
  }

  /**
   * Each property of a localized element is overwritten exactly when its
   * key's translation is truthy, and then with that translation; the keys
   * themselves are never touched.
   */
  lemma LocalizedOverwritesOnlyTruthy(e: Element, translations: map<string, Tree>, lang: string)
    ensures var r := Localized(e, translations, lang);
            var text := Translation(translations, lang, e.i18n);
            var ph := Translation(translations, lang, e.placeholderKey);
            var ti := Translation(translations, lang, e.titleKey);
            && r.i18n == e.i18n && r.asHtml == e.asHtml
            && r.placeholderKey == e.placeholderKey && r.titleKey == e.titleKey
            && r.content == (if text.None? then e.content else if e.asHtml then Html(text.value) else Text(text.value))
            && r.placeholder == (if ph.None? then e.placeholder else ph.value)
            && r.title == (if ti.None? then e.title else ti.value)
  {
  }

  /** Applying the translations twice leaves what applying them once did. */
  lemma LocalizedIdempotent(e: Element, translations: map<string, Tree>, lang: string)
    ensures Localized(Localized(e, translations, lang), translations, lang) == Localized(e, translations, lang)
  {
    LocalizedOverwritesOnlyTruthy(e, translations, lang);
    LocalizedOverwritesOnlyTruthy(Localized(e, translations, lang), translations, lang);
  }

  /** For a language without dictionaries, `applyTranslations` leaves every element as it is. */
  lemma UnknownLanguageChangesNoElement(e: Element, translations: map<string, Tree>, lang: string)
    requires lang !in translations
    ensures Localized(e, translations, lang) == e
  {
    forall key: Option<string> | key.Some? ensures Translation(translations, lang, key).None? {
      UnknownLanguageResolvesToNull(translations, lang, key.value);
    }
  }

  /** The page's `BlogArticleI18n` instance together with the bits of the document it writes. */
  class BlogArticleI18n {
    var currentLang: string
    const translations: map<string, Tree>
    /** `localStorage`. */
    var storage: map<string, string>
    /** `document.documentElement.lang`. */
    var documentLang: string
    /** The elements of the document, in document order. */
    var elements: seq<Element>
    /** The value of the `language-selector` element, when the page has one. */
    var selector: Option<string>
    /** The `lang` of each `languageChanged` event dispatched so far. */
    var dispatched: seq<string>

    /** `new BlogArticleI18n()`, which runs `init`: translate the page and show the language in the selector. */
    constructor (storage: map<string, string>, windowTranslations: Option<map<string, Tree>>,
                 documentLang: string, elements: seq<Element>, selector: Option<string>)
      ensures currentLang == InitialLanguage(storage)
      ensures translations == if windowTranslations.Some? then windowTranslations.value else map[]
      ensures this.storage == storage && this.documentLang == currentLang && dispatched == []
      ensures |this.elements| == |elements|
      ensures forall k :: 0 <= k < |elements| ==> this.elements[k] == Localized(elements[k], translations, currentLang)
      ensures this.selector == if selector.Some? then Some(currentLang) else None
    {
      currentLang := InitialLanguage(storage);
      translations := if windowTranslations.Some? then windowTranslations.value else map[];
      this.storage, this.documentLang, this.elements, this.selector, dispatched :=
        storage, documentLang, elements, selector, [];
      new;
      ApplyTranslations();
      if this.selector.Some? {
        this.selector := Some(currentLang);
      }
    }

    /** `getCurrentLang()`. */
    function GetCurrentLang(): (lang: string)
      reads this
      ensures lang == currentLang
    {
      currentLang
    }

    /** `t(path)`: the loop over the dotted segments of `path`. */
    method T(path: string) returns (r: Value)
      ensures r == Resolve(translations, currentLang, path)
    {
      var keys := Split(path, '.');
      var value := Child(translations, currentLang);
      var i := 0;
      while i < |keys|
        invariant 0 <= i <= |keys|
        invariant Walk(value, keys[i..]) == Resolve(translations, currentLang, path)
      {
        assert keys[i..][1..] == keys[i + 1..];
        if value.Found? && value.tree.Node? {
          value := Child(value.tree.fields, keys[i]);
        } else {
          return Null;
        }
        i := i + 1;
      }
      return value;
    }

    /** One `querySelectorAll('[data-i18n...]').forEach` pass over the document. */
    method TranslateAll(attr: Attr)
      modifies this
      ensures currentLang == old(currentLang) && storage == old(storage) && documentLang == old(documentLang)
      ensures selector == old(selector) && dispatched == old(dispatched)
      ensures |elements| == |old(elements)|
      ensures forall k :: 0 <= k < |elements| ==> elements[k] == Pass(old(elements)[k], attr, translations, currentLang)
    {
      var i := 0;
      while i < |elements|
        invariant 0 <= i <= |elements| == |old(elements)|
        invariant forall k :: 0 <= k < i ==> elements[k] == Pass(old(elements)[k], attr, translations, currentLang)
        invariant forall k :: i <= k < |elements| ==> elements[k] == old(elements)[k]
        invariant currentLang == old(currentLang) && storage == old(storage) && documentLang == old(documentLang)
        invariant selector == old(selector) && dispatched == old(dispatched)
      {
        var key := KeyOf(elements[i], attr);
        if key.Some? {
          var translation := T(key.value);
          if Truthy(translation) {
            elements := elements[i := Write(elements[i], attr, ToText(translation.tree))];
          }
        }
        i := i + 1;
      }
    }

    /** `applyTranslations()`: the text, placeholder and title passes, then the document language. */
    method ApplyTranslations()
      modifies this
      ensures currentLang == old(currentLang) && storage == old(storage) && documentLang == currentLang
      ensures selector == old(selector) && dispatched == old(dispatched)
      ensures |elements| == |old(elements)|
      ensures forall k :: 0 <= k < |elements| ==> elements[k] == Localized(old(elements)[k], translations, currentLang)
    {
      TranslateAll(TextAttr);
      TranslateAll(PlaceholderAttr);
      TranslateAll(TitleAttr);
      documentLang := currentLang;
    }

    /** The `languageChanged` listener: take the event's language as it is, then translate the page. */
    method OnLanguageChanged(lang: string)
      modifies this
      ensures currentLang == lang && storage == old(storage) && documentLang == lang
      ensures selector == old(selector) && dispatched == old(dispatched)
      ensures |elements| == |old(elements)|
      ensures forall k :: 0 <= k < |elements| ==> elements[k] == Localized(old(elements)[k], translations, lang)
    {
      currentLang := lang;
      ApplyTranslations();
    }

    /**
     * `setLanguage(lang)`: only a language with truthy dictionaries is taken.
     * It is stored, the page is translated, and `languageChanged` is
     * dispatched, which runs this object's own listener synchronously.
     */
    method SetLanguage(lang: string)
      modifies this
      ensures var known := Truthy(Child(translations, lang));
              && (known ==>
                    && currentLang == lang && GetCurrentLang() == lang
                    && storage == old(storage)[PREFERRED_LANGUAGE := lang]
                    && documentLang == lang && dispatched == old(dispatched) + [lang]
                    && |elements| == |old(elements)|
                    && forall k :: 0 <= k < |elements| ==> elements[k] == Localized(old(elements)[k], translations, lang))
              && (!known ==>
                    && currentLang == old(currentLang) && storage == old(storage)
                    && documentLang == old(documentLang) && elements == old(elements)
                    && dispatched == old(dispatched))
      ensures selector == old(selector)
    {
      if Truthy(Child(translations, lang)) {
        currentLang := lang;
        storage := storage[PREFERRED_LANGUAGE := lang];
        ApplyTranslations();
        documentLang := lang;
        dispatched := dispatched + [lang];
        OnLanguageChanged(currentLang);
        forall k | 0 <= k < |elements|
          ensures elements[k] == Localized(old(elements)[k], translations, lang)
        {
          LocalizedIdempotent(old(elements)[k], translations, lang);
        }
      }
    }

    /**
     * The `change` listener of the language selector, which exists only when
     * the page has one: the selector holds the chosen `value`, and
     * `setLanguage(value)` runs.
     */
    method OnSelectorChange(value: string)
      requires selector.Some?
      modifies this
      ensures var known := Truthy(Child(translations, value));
              && (known ==>
                    && currentLang == value && GetCurrentLang() == value
                    && storage == old(storage)[PREFERRED_LANGUAGE := value]
                    && documentLang == value && dispatched == old(dispatched) + [value]
                    && |elements| == |old(elements)|
                    && forall k :: 0 <= k < |elements| ==> elements[k] == Localized(old(elements)[k], translations, value))
              && (!known ==>
                    && currentLang == old(currentLang) && storage == old(storage)
                    && documentLang == old(documentLang) && elements == old(elements)
                    && dispatched == old(dispatched))
      ensures selector == Some(value)
    {
      selector := Some(value);
      SetLanguage(value);
    }
  }
}
