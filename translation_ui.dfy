/** The display rules of the front end's translation pages: the language filter built from the
    fetched resources, the table of one row per resource with its text-fallback chain, and the
    edit page's default and current texts. The backend calls are parameters holding either the
    decoded JSON or the message of the exception the fetch raised. */
module TranslationUi {
  import opened Wrappers
  import TranslationApi
  import TextResources
  import Repository

  type TranslationResponse = TranslationApi.TranslationResponse
  type TextResourceResponse = TranslationApi.TextResourceResponse

  /** The language shown and edited when the query string names none, and the one fallen back to. */
  const FallbackLanguage := "en-US"
  /** The table text when neither the selected nor the fallback language has a text. */
  const MissingRowText := "---"
  /** The edit page's default text when the fallback language has none. */
  const MissingDefaultText := "N/A"
  /** The edit page's current text when the edited language has none. */
  const MissingCurrentText := ""

  /** A backend call: the decoded response, or the message of the exception it raised. */
  datatype Fetch<T> = Fetched(value: T) | FetchFailed(message: string)

  datatype Row = Row(sid: string, text: string)

  datatype IndexView = IndexView(tableData: seq<Row>, selectedLang: string, availableLanguages: seq<string>)

  datatype EditView = EditView(details: TextResourceResponse, defaultText: string, currentText: string,
                               editLang: string, availableLanguages: seq<string>)

  /** What a page action answers: the rendered view, `back()` with the error, or a redirect to
      the index page with the error. */
  datatype Page<V> = Render(view: V) | BackWithErrors(message: string) | RedirectToIndexWithErrors(message: string)

  predicate NoDuplicates(xs: seq<string>) {
    forall i, j | 0 <= i < j < |xs| :: xs[i] != xs[j]
  }

  /** The position of the first occurrence of `x`. */
  function IndexOf(xs: seq<string>, x: string): (k: nat)
    requires x in xs
    ensures k < |xs| && xs[k] == x && forall j | 0 <= j < k :: xs[j] != x
  {
    if xs[0] == x then 0 else 1 + IndexOf(xs[1..], x)
  }

  /** The first occurrence of a value in a prefix is its first occurrence in the whole. */
  lemma {:induction false} IndexOfInPrefix(xs: seq<string>, m: nat, x: string)
    requires m <= |xs| && x in xs[..m]
    ensures x in xs && IndexOf(xs, x) == IndexOf(xs[..m], x)
  {
    var k := IndexOf(xs[..m], x);
    assert xs[k] == x;
    var n := IndexOf(xs, x);
    assert !(k < n);
    assert !(n < k);
  }

  /** `unique()->values()`: each value once, at its first occurrence, in order of first occurrence. */
  function Unique(xs: seq<string>): (u: seq<string>)
    ensures forall x :: x in u <==> x in xs
    ensures NoDuplicates(u)
    ensures forall i, j | 0 <= i < j < |u| :: IndexOf(xs, u[i]) < IndexOf(xs, u[j])
    decreases |xs|
  {
    if xs == [] then []
    else
      var init := xs[..|xs| - 1];
      var last := xs[|xs| - 1];
      assert xs == init + [last];
      var prefix := Unique(init);
      assert forall i | 0 <= i < |prefix| :: IndexOf(xs, prefix[i]) == IndexOf(init, prefix[i]) by {
        forall i | 0 <= i < |prefix| ensures IndexOf(xs, prefix[i]) == IndexOf(init, prefix[i]) {
          IndexOfInPrefix(xs, |xs| - 1, prefix[i]);
        }
      }
      if last in prefix then prefix
      else
        assert IndexOf(xs, last) == |xs| - 1;
        prefix + [last]
  }

  /** The `langId` of every translation of every resource, resource by resource
      (`pluck('translations')->flatten(1)->pluck('langId')`). */
  function LanguagesOf(resources: seq<TextResourceResponse>): (langs: seq<string>)
    ensures forall x :: x in langs <==>
      exists i, j | 0 <= i < |resources| && 0 <= j < |resources[i].translations| :: resources[i].translations[j].langId == x
    decreases |resources|
  {
    if resources == [] then []
    else
      var head := resources[0].translations;
      var own := seq(|head|, j requires 0 <= j < |head| => head[j].langId);
      var rest := LanguagesOf(resources[1..]);
      forall x
        ensures x in own + rest <==>
          exists i, j | 0 <= i < |resources| && 0 <= j < |resources[i].translations| :: resources[i].translations[j].langId == x
      {
        if x in own {
          var j :| 0 <= j < |head| && own[j] == x;
          assert resources[0].translations[j].langId == x;
        }
        if x in rest {
          var i, j :| 0 <= i < |resources[1..]| && 0 <= j < |resources[1..][i].translations| &&
            resources[1..][i].translations[j].langId == x;
          assert resources[i + 1].translations[j].langId == x;
        }
        if exists i, j | 0 <= i < |resources| && 0 <= j < |resources[i].translations| :: resources[i].translations[j].langId == x {
          var i, j :| 0 <= i < |resources| && 0 <= j < |resources[i].translations| && resources[i].translations[j].langId == x;
          if i == 0 {
            assert own[j] == x;
          } else {
            assert resources[1..][i - 1].translations[j].langId == x;
          }
        }
      }
      own + rest
  }

  /** The language filter: every language of any fetched translation, listed once, in order of
      first appearance. */
  function AvailableLanguages(resources: seq<TextResourceResponse>): (langs: seq<string>)
    ensures NoDuplicates(langs)
    ensures forall x :: x in langs <==>
      exists i, j | 0 <= i < |resources| && 0 <= j < |resources[i].translations| :: resources[i].translations[j].langId == x
  {
    Unique(LanguagesOf(resources))
  }

  /** `where('langId', lang)->first()`: the first translation in this language. */
  function FirstOf(ts: seq<TranslationResponse>, langId: string): (k: Option<nat>)
    ensures k.Some? ==> k.value < |ts| && ts[k.value].langId == langId
    ensures k.Some? ==> forall j | 0 <= j < k.value :: ts[j].langId != langId
    ensures k.None? <==> forall j | 0 <= j < |ts| :: ts[j].langId != langId
  {
    if ts == [] then None
    else if ts[0].langId == langId then Some(0)
    else match FirstOf(ts[1..], langId)
      case Some(k) => Some(k + 1)
      case None => None
  }

  /** `where('langId', lang)->first()['text']`: null when there is no such translation or its
      text is null, so that `??` falls through in both cases. */
  function FirstText(ts: seq<TranslationResponse>, langId: string): (t: Option<string>)
    ensures t.Some? <==> FirstOf(ts, langId).Some? && ts[FirstOf(ts, langId).value].text.Some?
    ensures t.Some? ==> t == ts[FirstOf(ts, langId).value].text
  {
    match FirstOf(ts, langId)
    case Some(k) => ts[k].text
    case None => None
  }

  /** The table text of one resource: the selected language's text, else the `en-US` text,
      else `---`. It is always `---` or the text of a translation in one of those two languages. */
  function RowText(ts: seq<TranslationResponse>, selected: string): (text: string)
    ensures FirstText(ts, selected).Some? ==> text == FirstText(ts, selected).value
    ensures FirstText(ts, selected).None? && FirstText(ts, FallbackLanguage).Some? ==>
      text == FirstText(ts, FallbackLanguage).value
    ensures FirstText(ts, selected).None? && FirstText(ts, FallbackLanguage).None? ==> text == MissingRowText
    ensures text == MissingRowText || exists i | 0 <= i < |ts| ::
      ts[i].text == Some(text) && (ts[i].langId == selected || ts[i].langId == FallbackLanguage)
  {
    match FirstText(ts, selected)
    case Some(t) => t
    case None => FirstText(ts, FallbackLanguage).GetOr(MissingRowText)
  }

  /** The table: one row per fetched resource, in order, with its Sid and its row text. */
  function TableData(resources: seq<TextResourceResponse>, selected: string): (rows: seq<Row>)
    ensures |rows| == |resources|
    ensures forall i | 0 <= i < |resources| ::
      rows[i].sid == resources[i].sid && rows[i].text == RowText(resources[i].translations, selected)
  {
    seq(|resources|, i requires 0 <= i < |resources| =>
      Row(resources[i].sid, RowText(resources[i].translations, selected)))
  }

  /** `index`: the `lang` query parameter, `en-US` when absent; a failed fetch goes back with its
      message; otherwise the table, the selected language and the language filter. */
  function Index(lang: Option<string>, resources: Fetch<seq<TextResourceResponse>>): (p: Page<IndexView>)
    ensures resources.FetchFailed? ==> p == BackWithErrors(resources.message)
    ensures resources.Fetched? ==> p.Render? && p.view.selectedLang == lang.GetOr(FallbackLanguage)
    ensures resources.Fetched? ==>
      p.view.tableData == TableData(resources.value, lang.GetOr(FallbackLanguage)) &&
      p.view.availableLanguages == AvailableLanguages(resources.value)
  {
    match resources
    case FetchFailed(message) => BackWithErrors(message)
    case Fetched(rs) =>
      var selected := lang.GetOr(FallbackLanguage);
      Render(IndexView(TableData(rs, selected), selected, AvailableLanguages(rs)))
  }

  /** `edit`: the `edit_lang` query parameter, `en-US` when absent; the resource is fetched before
      the list, so its failure is the one reported; the default text is the `en-US` text or `N/A`,
      the current text the edited language's text or the empty string. */
  function Edit(editLang: Option<string>, details: Fetch<TextResourceResponse>, all: Fetch<seq<TextResourceResponse>>)
    : (p: Page<EditView>)
    ensures details.FetchFailed? ==> p == RedirectToIndexWithErrors(details.message)
    ensures details.Fetched? && all.FetchFailed? ==> p == RedirectToIndexWithErrors(all.message)
    ensures details.Fetched? && all.Fetched? ==> p.Render?
    ensures p.Render? ==> details.Fetched? && all.Fetched? && p.view.details == details.value
    ensures p.Render? ==> p.view.editLang == editLang.GetOr(FallbackLanguage)
    ensures p.Render? ==>
      p.view.defaultText == FirstText(details.value.translations, FallbackLanguage).GetOr(MissingDefaultText)
    ensures p.Render? ==>
      p.view.currentText == FirstText(details.value.translations, p.view.editLang).GetOr(MissingCurrentText)
    ensures p.Render? ==> p.view.availableLanguages == AvailableLanguages(all.value)
  {
    match details
    case FetchFailed(message) => RedirectToIndexWithErrors(message)
    case Fetched(d) =>
      match all
      case FetchFailed(message) => RedirectToIndexWithErrors(message)
      case Fetched(rs) =>
        var lang := editLang.GetOr(FallbackLanguage);
        var ts := d.translations;
        Render(EditView(d, FirstText(ts, FallbackLanguage).GetOr(MissingDefaultText),
                        FirstText(ts, lang).GetOr(MissingCurrentText), lang, AvailableLanguages(rs)))
  }

  /** The backend's listing of the stored rows, as the index page decodes it. */
  function Listed(rows: seq<TextResources.Resource>): (rs: seq<TextResourceResponse>)
    ensures |rs| == |rows| && forall i | 0 <= i < |rows| :: rs[i] == TranslationApi.MapToDto(rows[i])
  {
    seq(|rows|, i requires 0 <= i < |rows| => TranslationApi.MapToDto(rows[i]))
  }

  /** Over a store satisfying its schema, the index row of a resource that holds a text in the
      selected language, spelled exactly, shows that text: the unique (Sid, LangId) index makes
      that translation the first match. */
  lemma {:induction false} IndexShowsStoredText(rows: seq<TextResources.Resource>, k: nat, m: nat, selected: string)
    requires Repository.SatisfiesSchema(rows)
    requires k < |rows| && m < |rows[k].translations|
    requires rows[k].translations[m].langId == selected
    ensures TableData(Listed(rows), selected)[k] == Row(rows[k].sid, rows[k].translations[m].text.value)
  {
    assert Repository.RowFitsColumns(rows[k]) && Repository.ExactlyUniqueLanguages(rows[k].translations);
    var ts := Listed(rows)[k].translations;
    assert ts[m].langId == selected;
    var f := FirstOf(ts, selected);
    assert f.Some?;
    assert !(f.value < m);
    assert !(m < f.value);
  }
}
