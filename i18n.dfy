/** Locale detection and bilingual field selection of lib/i18n.ts. Every text
    field of a showcase exists in a Chinese and an English column; the site
    shows the preferred one and falls back to the other. */
module I18n {
  import opened Wrappers
  import opened Strings
  import opened Types

  /** The letters `z` then `h` (in either case) at position `k`. */
  predicate ZhAt(s: string, k: int) {
    0 <= k && k + 1 < |s| && LowerChar(s[k]) == 'z' && LowerChar(s[k + 1]) == 'h'
  }

  /** `resolveInitialLocale(acceptLanguage)`: Chinese when the lowered header
      mentions `zh` anywhere, English otherwise, including for a missing or
      empty header. */
  function ResolveInitialLocale(acceptLanguage: Option<string>): (r: Locale)
    ensures acceptLanguage.None? || acceptLanguage.value == "" ==> r == En
  {
    match acceptLanguage
    case None => En
    case Some(s) => if s == "" then En else if Contains(Lower(s), "zh") then Zh else En
  }

  /** `zh` is found anywhere in the header, not only at its start: the result
      is `Zh` exactly when some position holds `z` followed by `h`. */
  lemma ResolveZhIffOccurs(acceptLanguage: Option<string>)
    ensures ResolveInitialLocale(acceptLanguage) == Zh <==>
            acceptLanguage.Some? && exists k :: ZhAt(acceptLanguage.value, k)
  {
    if acceptLanguage.Some? {
      var s := acceptLanguage.value;
      var low := Lower(s);
      ContainsAt(low, "zh");
      if Contains(low, "zh") {
        var k :| OccursAt(low, "zh", k);
        assert low[k..k + 2][0] == 'z' && low[k..k + 2][1] == 'h';
        assert ZhAt(s, k);
      }
      if k :| ZhAt(s, k) {
        assert low[k..k + 2] == "zh";
        assert OccursAt(low, "zh", k);
      }
    }
  }

  /** The first two characters of `s`, folded, are `a` and `b`. */
  predicate FoldedPrefix(s: string, a: char, b: char) {
    |s| >= 2 && LowerChar(s[0]) == a && LowerChar(s[1]) == b
  }

  /** `normalizeNavigatorLanguage(language)`: `Zh` or `En` by the lowered
      prefix, nothing for a missing, empty or other language tag. */
  function NormalizeNavigatorLanguage(language: Option<string>): (r: Option<Locale>)
    ensures language.None? || language.value == "" ==> r.None?
    ensures r == Some(Zh) <==> language.Some? && FoldedPrefix(language.value, 'z', 'h')
    ensures r == Some(En) <==> language.Some? && FoldedPrefix(language.value, 'e', 'n')
  {
    match language
    case None => None
    case Some(s) =>
      LowerStartsWith(s, "zh");
      LowerStartsWith(s, "en");
      if s == "" then None
      else if StartsWith(Lower(s), "zh") then Some(Zh)
      else if StartsWith(Lower(s), "en") then Some(En)
      else None
  }

  /** A browser language the client reads as Chinese is read as Chinese by the
      server-side detection too. */
  lemma NavigatorZhResolvesZh(language: Option<string>)
    requires NormalizeNavigatorLanguage(language) == Some(Zh)
    ensures ResolveInitialLocale(language) == Zh
  {
    assert ZhAt(language.value, 0);
    ResolveZhIffOccurs(language);
  }

  /** A value in both languages. */
  datatype Bilingual<T> = Bilingual(zh: T, en: T) {
    function In(l: Locale): T {
      if l == Zh then zh else en
    }
  }

  function Other(l: Locale): Locale {
    if l == Zh then En else Zh
  }

  /** The text fields that come in two languages. */
  datatype TextField = Title | Summary | Headline | Body | Perf

  /** The list fields that come in two languages. */
  datatype ListField = KeyPoints | ReusableSteps

  /** The pair of columns behind a text field. */
  function TextColumns(record: ShowcaseRecord, field: TextField): Bilingual<Option<string>> {
    match field
    case Title => Bilingual(record.titleZh, record.titleEn)
    case Summary => Bilingual(record.summaryZh, record.summaryEn)
    case Headline => Bilingual(record.headlineZh, record.headlineEn)
    case Body => Bilingual(record.bodyMdZh, record.bodyMdEn)
    case Perf => Bilingual(record.perfNotesZh, record.perfNotesEn)
  }

  /** The pair of columns behind a list field. */
  function ListColumns(record: ShowcaseRecord, field: ListField): Bilingual<Option<seq<string>>> {
    match field
    case KeyPoints => Bilingual(record.keyPointsZh, record.keyPointsEn)
    case ReusableSteps => Bilingual(record.reuseStepsZh, record.reuseStepsEn)
  }

  /** A column holds text whose trim is not empty. */
  predicate UsableText(v: Option<string>) {
    v.Some? && !IsBlank(v.value)
  }

  /** A column holds a non-empty list. */
  predicate UsableList(v: Option<seq<string>>) {
    v.Some? && |v.value| > 0
  }

  /** `preferredText ?? otherText`, each column kept only when usable. */
  function Prefer<T>(pair: Bilingual<Option<T>>, usable: Option<T> -> bool, preferred: Locale): Option<T> {
    if usable(pair.In(preferred)) then pair.In(preferred)
    else if usable(pair.In(Other(preferred))) then pair.In(Other(preferred))
    else None
  }

  /** `getLocalizedText(record, field, preferredLocale = 'en')`: the preferred
      column when its trim is not empty, else the other column when its trim is
      not empty, else nothing. What is returned is the column itself, untrimmed. */
  function GetLocalizedText(record: ShowcaseRecord, field: TextField, preferred: Option<Locale>): (r: Option<string>)
    ensures var cols, p := TextColumns(record, field), preferred.GetOr(En);
            && (r.Some? ==> !IsBlank(r.value) && (Some(r.value) == cols.zh || Some(r.value) == cols.en))
            && (r.None? <==> !UsableText(cols.zh) && !UsableText(cols.en))
            && (UsableText(cols.In(p)) ==> r == cols.In(p))
            && (!UsableText(cols.In(p)) && UsableText(cols.In(Other(p))) ==> r == cols.In(Other(p)))
  {
    Prefer(TextColumns(record, field), UsableText, preferred.GetOr(En))
  }

  /** With only one usable column, the preference does not matter. */
  lemma LocalizedTextSingleColumn(record: ShowcaseRecord, field: TextField, p: Option<Locale>, q: Option<Locale>)
    requires var cols := TextColumns(record, field); !(UsableText(cols.zh) && UsableText(cols.en))
    ensures GetLocalizedText(record, field, p) == GetLocalizedText(record, field, q)
  {
  }

  /** `getLocalizedList(record, field, preferredLocale = 'en')`: the preferred
      list when it is non-empty, else the other list when it is non-empty, else
      the empty list. The elements themselves are never inspected. */
  function GetLocalizedList(record: ShowcaseRecord, field: ListField, preferred: Option<Locale>): (r: seq<string>)
    ensures var cols, p := ListColumns(record, field), preferred.GetOr(En);
            && (r != [] ==> Some(r) == cols.zh || Some(r) == cols.en)
            && (r == [] <==> !UsableList(cols.zh) && !UsableList(cols.en))
            && (UsableList(cols.In(p)) ==> Some(r) == cols.In(p))
            && (!UsableList(cols.In(p)) && UsableList(cols.In(Other(p))) ==> Some(r) == cols.In(Other(p)))
  {
    Prefer(ListColumns(record, field), UsableList, preferred.GetOr(En)).GetOr([])
  }

  /** With only one non-empty list, the preference does not matter. */
  lemma LocalizedListSingleColumn(record: ShowcaseRecord, field: ListField, p: Option<Locale>, q: Option<Locale>)
    requires var cols := ListColumns(record, field); !(UsableList(cols.zh) && UsableList(cols.en))
    ensures GetLocalizedList(record, field, p) == GetLocalizedList(record, field, q)
  {
  }
}
