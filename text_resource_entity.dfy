/** The text resource aggregate: a business key (Sid) and its translations, at most one per
    language ignoring case, changed only through `AddOrUpdateTranslation`. */
module TextResources {
  import opened Wrappers
  import opened OrdinalText
  import opened TranslationEntities

  /** A technical identity; `Guid.NewGuid()` is an input of the model. */
  type Guid = nat

  const EmptyGuid: Guid := 0

  /** The fields of an aggregate, translations in list order. */
  datatype Resource = Resource(id: Guid, sid: string, translations: seq<Translation>)

  /** The lookup predicate of the upsert: ordinal comparison ignoring case. */
  predicate Matches(t: Translation, langId: Option<string>) {
    EqualsIgnoreCase(t.langId, langId)
  }

  /** No two translations have languages equal ignoring case. */
  predicate UniqueLanguages(ts: seq<Translation>) {
    forall i, j | 0 <= i < j < |ts| :: !SameIgnoringCase(ts[i].langId, ts[j].langId)
  }

  /** What the constructors establish and the upsert keeps: a technical id, a non-blank Sid,
      every translation bound to that Sid with a non-blank language, languages unique
      ignoring case. */
  predicate ValidResource(r: Resource) {
    && r.id != EmptyGuid
    && !IsBlank(r.sid)
    && (forall i | 0 <= i < |r.translations| ::
          r.translations[i].sid == r.sid && !IsBlank(r.translations[i].langId))
    && UniqueLanguages(r.translations)
  }

  /** `FirstOrDefault` on the language: the index of the first translation matching
      `langId`, or None. */
  function FindLanguage(ts: seq<Translation>, langId: Option<string>): (k: Option<nat>)
    ensures k.Some? ==> k.value < |ts| && Matches(ts[k.value], langId)
    ensures k.Some? ==> forall j | 0 <= j < k.value :: !Matches(ts[j], langId)
    ensures k.None? <==> forall j | 0 <= j < |ts| :: !Matches(ts[j], langId)
  {
    if ts == [] then None
    else if Matches(ts[0], langId) then Some(0)
    else match FindLanguage(ts[1..], langId)
      case Some(k) => Some(k + 1)
      case None => None
  }

  /** The effect of `AddOrUpdateTranslation` on the aggregate's fields: the first match gets
      the new text; with no match a new translation bound to the Sid is appended, unless its
      constructor throws. */
  function Upsert(r: Resource, langId: Option<string>, text: Option<string>)
    : (res: Result<Resource, DomainError>)
    ensures res.Success? ==> res.value.id == r.id && res.value.sid == r.sid
    ensures res.Success? ==> r.translations <= res.value.translations
                             || |res.value.translations| == |r.translations|
  {
    match FindLanguage(r.translations, langId)
    case Some(k) =>
      Success(r.(translations := r.translations[k := r.translations[k].(text := text)]))
    case None =>
      match NewTranslation(Some(r.sid), langId, text)
      case Success(t) => Success(r.(translations := r.translations + [t]))
      case Failure(e) => Failure(e)
  }

  /** An upsert for a language absent ignoring case appends exactly one translation with
      this resource's Sid and the given language and text; existing entries are unchanged. */
  lemma UpsertAbsentAppends(r: Resource, langId: string, text: string)
    requires !IsBlank(r.sid) && !IsBlank(langId)
    requires forall j | 0 <= j < |r.translations| :: !SameIgnoringCase(r.translations[j].langId, langId)
    ensures Upsert(r, Some(langId), Some(text))
         == Success(r.(translations := r.translations + [Translation(UnsavedId, r.sid, langId, Some(text))]))
  {
  }

  /** An upsert for a language present ignoring case keeps the count, replaces only that
      entry's text and keeps its original spelling of the language. */
  lemma {:induction false} UpsertPresentReplacesText(r: Resource, k: nat, langId: Option<string>, text: Option<string>)
    requires UniqueLanguages(r.translations)
    requires k < |r.translations| && Matches(r.translations[k], langId)
    ensures Upsert(r, langId, text).Success?
    ensures var ts := Upsert(r, langId, text).value.translations;
      && |ts| == |r.translations|
      && ts[k] == r.translations[k].(text := text)
      && ts[k].langId == r.translations[k].langId
      && forall j | 0 <= j < |ts| && j != k :: ts[j] == r.translations[j]
  {
    forall j | 0 <= j < k
      ensures !Matches(r.translations[j], langId)
    {
      assert !SameIgnoringCase(r.translations[j].langId, r.translations[k].langId);
    }
    assert FindLanguage(r.translations, langId) == Some(k);
  }

  /** The upsert fails only when no language matches and the new entry's constructor throws;
      the resource is not changed then. */
  lemma {:induction false} UpsertFails(r: Resource, langId: Option<string>, text: Option<string>)
    requires !IsBlank(r.sid)
    ensures Upsert(r, langId, text).Failure?
        <==> FindLanguage(r.translations, langId).None? && (IsNullOrWhiteSpace(langId) || text.None?)
  {
  }

  /** A null or blank language never matches a stored one, so upserting it always throws. */
  lemma {:induction false} BlankLanguageIsRefused(r: Resource, langId: Option<string>, text: Option<string>)
    requires ValidResource(r)
    requires IsNullOrWhiteSpace(langId)
    ensures Upsert(r, langId, text) == Failure(LanguageIdMandatory)
  {
    forall j | 0 <= j < |r.translations|
      ensures !Matches(r.translations[j], langId)
    {
      if Matches(r.translations[j], langId) {
        SameAsBlankIsBlank(r.translations[j].langId, langId.value);
      }
    }
  }

  /** Every successful upsert keeps the aggregate's invariant. */
  lemma {:induction false} UpsertPreservesInvariant(r: Resource, langId: Option<string>, text: Option<string>)
    requires ValidResource(r)
    ensures Upsert(r, langId, text).Success? ==> ValidResource(Upsert(r, langId, text).value)
  {
    match FindLanguage(r.translations, langId)
    case Some(k) =>
      var ts := Upsert(r, langId, text).value.translations;
      assert forall j | 0 <= j < |ts| :: ts[j].langId == r.translations[j].langId && ts[j].sid == r.translations[j].sid;
    case None =>
      if NewTranslation(Some(r.sid), langId, text).Success? {
        var t := NewTranslation(Some(r.sid), langId, text).value;
        var ts := r.translations + [t];
        forall i, j | 0 <= i < j < |ts|
          ensures !SameIgnoringCase(ts[i].langId, ts[j].langId)
        {
          if j == |ts| - 1 {
            assert !Matches(r.translations[i], langId);
          }
        }
      }
  }

  /** The invariant implies the exact-match uniqueness of (Sid, LangId) that the database
      index demands. */
  lemma {:induction false} UniqueLanguagesAreExactlyUnique(r: Resource)
    requires ValidResource(r)
    ensures forall i, j | 0 <= i < j < |r.translations| ::
      (r.translations[i].sid, r.translations[i].langId) != (r.translations[j].sid, r.translations[j].langId)
  {
    forall i, j | 0 <= i < j < |r.translations|
      ensures r.translations[i].langId != r.translations[j].langId
    {
      assert !SameIgnoringCase(r.translations[i].langId, r.translations[j].langId);
    }
  }

  /** Upserting two languages distinct ignoring case into a fresh resource keeps two
      entries, each with its own text. */
  lemma TwoLanguagesKeptApart(id: Guid, sid: string, l1: string, t1: string, l2: string, t2: string)
    requires !IsBlank(sid) && !IsBlank(l1) && !IsBlank(l2) && !SameIgnoringCase(l1, l2)
    ensures var r1 := Upsert(Resource(id, sid, []), Some(l1), Some(t1));
      && r1.Success?
      && var r2 := Upsert(r1.value, Some(l2), Some(t2));
      && r2.Success?
      && r2.value.translations
         == [Translation(UnsavedId, sid, l1, Some(t1)), Translation(UnsavedId, sid, l2, Some(t2))]
  {
  }

  /** Upserting the same language twice with different casing keeps one entry, with the
      first spelling and the second text. */
  lemma SecondSpellingOverwrites(id: Guid, sid: string, l: string, t1: string, other: string, t2: string)
    requires !IsBlank(sid) && !IsBlank(l) && SameIgnoringCase(l, other)
    ensures var r1 := Upsert(Resource(id, sid, []), Some(l), Some(t1));
      && r1.Success?
      && var r2 := Upsert(r1.value, Some(other), Some(t2));
      && r2.Success?
      && r2.value.translations == [Translation(UnsavedId, sid, l, Some(t2))]
  {
  }

  /** The upsert at the first matching index `k` replaces that entry's text. */
  lemma UpsertAtFirstMatch(r: Resource, k: nat, langId: Option<string>, text: Option<string>)
    requires k < |r.translations| && Matches(r.translations[k], langId)
    requires forall j | 0 <= j < k :: !Matches(r.translations[j], langId)
    ensures Upsert(r, langId, text)
         == Success(r.(translations := r.translations[k := r.translations[k].(text := text)]))
  {
    assert FindLanguage(r.translations, langId) == Some(k);
  }

  /** The first match found by a scan is what `FindLanguage` answers. */
  lemma FirstMatchIsFound(ts: seq<Translation>, k: nat, langId: Option<string>)
    requires k < |ts| && Matches(ts[k], langId)
    requires forall j | 0 <= j < k :: !Matches(ts[j], langId)
    ensures FindLanguage(ts, langId) == Some(k)
  {
  }

  /** The values of a list of translation objects. */
  function ValuesOf(ts: seq<TranslationEntity>): seq<Translation>
    reads ts
  {
    seq(|ts|, i requires 0 <= i < |ts| reads ts => ts[i].Value())
  }

  class TextResourceEntity {
    const Id: Guid
    const Sid: string
    var translations: seq<TranslationEntity>

    /** The objects that make up the aggregate. */
    ghost function Repr(): set<object>
      reads this
    {
      {this as object} + (set t: TranslationEntity | t in translations :: t as object)
    }

    /** The read-only `Translations` view: values, so no caller can add or remove entries. */
    function Translations(): seq<Translation>
      reads this, translations
    {
      ValuesOf(translations)
    }

    function View(): Resource
      reads this, translations
    {
      Resource(Id, Sid, Translations())
    }

    ghost predicate Valid()
      reads this, translations
    {
      && (forall i, j | 0 <= i < j < |translations| :: translations[i] != translations[j])
      && ValidResource(View())
    }

    /** The public constructor after its check: a fresh id, the Sid, no translations. */
    constructor Init(newId: Guid, sid: string)
      requires newId != EmptyGuid && !IsBlank(sid)
      ensures Valid() && fresh(Repr()) && View() == Resource(newId, sid, [])
    {
      Id, Sid, translations := newId, sid, [];
    }

    /** An aggregate loaded by the object-relational mapper: one object per stored row. */
    constructor FromRow(row: Resource)
      requires ValidResource(row)
      ensures Valid() && fresh(Repr()) && View() == row
    {
      var objs: seq<TranslationEntity> := [];
      var i := 0;
      while i < |row.translations|
        invariant 0 <= i <= |row.translations| && |objs| == i
        invariant forall j | 0 <= j < i :: fresh(objs[j]) && objs[j].Value() == row.translations[j]
        invariant forall j, l | 0 <= j < l < i :: objs[j] != objs[l]
      {
        var t := new TranslationEntity.FromRow(row.translations[i]);
        objs := objs + [t];
        i := i + 1;
      }
      Id, Sid, translations := row.id, row.sid, objs;
      new;
      assert Translations() == row.translations;
    }

    /** The constructor `TextResourceEntity(sid)`: throws when the sid is null, empty or
        white space; otherwise a fresh aggregate with the given Sid and no translations. */
    static method New(sid: Option<string>, newId: Guid) returns (r: Result<TextResourceEntity, DomainError>)
      requires newId != EmptyGuid
      ensures r.Failure? <==> IsNullOrWhiteSpace(sid)
      ensures r.Failure? ==> r.error == SidRequired
      ensures r.Success? ==> && fresh(r.value.Repr()) && r.value.Valid()
                             && r.value.View() == Resource(newId, sid.value, [])
    {
      if IsNullOrWhiteSpace(sid) {
        return Failure(SidRequired);
      }
      var e := new TextResourceEntity.Init(newId, sid.value);
      return Success(e);
    }

    /** The `FirstOrDefault` search: the position of the first translation whose language
        equals `langId` ignoring case, or the count when there is none. */
    method FindExisting(langId: Option<string>) returns (k: nat)
      ensures k <= |translations|
      ensures k < |translations| ==> FindLanguage(Translations(), langId) == Some(k)
      ensures k == |translations| ==> FindLanguage(Translations(), langId).None?
    {
      k := 0;
      while k < |translations| && !EqualsIgnoreCase(translations[k].LangId, langId)
        invariant 0 <= k <= |translations|
        invariant forall j | 0 <= j < k :: !EqualsIgnoreCase(translations[j].LangId, langId)
      {
        k := k + 1;
      }
      ghost var ts := Translations();
      assert forall j | 0 <= j < k :: !Matches(ts[j], langId);
      if k < |translations| {
        FirstMatchIsFound(ts, k, langId);
      }
    }

    /** `existing.UpdateText(text)` on the entry at `k`: the list keeps its objects, and only
        that entry's text changes. */
    method ReplaceTextAt(k: nat, text: Option<string>)
      requires Valid() && k < |translations|
      modifies translations[k]
      ensures translations == old(translations)
      ensures Translations() == old(Translations())[k := old(Translations())[k].(text := text)]
    {
      var target := translations[k];
      target.UpdateText(text);
      assert forall j | 0 <= j < |translations| && j != k :: translations[j] != target;
    }

    /** `_translations.Add(t)` for a new entry object. */
    method Append(t: TranslationEntity)
      requires Valid() && t !in translations
      modifies this
      ensures translations == old(translations) + [t]
      ensures Translations() == old(Translations()) + [t.Value()]
      ensures forall i, j | 0 <= i < j < |translations| :: translations[i] != translations[j]
    {
      translations := translations + [t];
    }

    /** Updates the text of the first translation whose language equals `langId` ignoring
        case, or appends a new translation bound to this Sid; a throwing constructor leaves
        the aggregate as it was. */
    method AddOrUpdateTranslation(langId: Option<string>, text: Option<string>) returns (outcome: Outcome<DomainError>)
      requires Valid()
      modifies Repr()
      ensures Valid() && fresh(Repr() - old(Repr()))
      ensures Upsert(old(View()), langId, text).Success? ==>
        outcome.Pass? && View() == Upsert(old(View()), langId, text).value
      ensures Upsert(old(View()), langId, text).Failure? ==>
        outcome == Fail(Upsert(old(View()), langId, text).error) && View() == old(View())
      ensures old(translations) <= translations && |translations| <= |old(translations)| + 1
      ensures FindLanguage(old(Translations()), langId).Some? || outcome.Fail? ==> translations == old(translations)
      ensures |translations| == |old(translations)| + 1 ==> fresh(translations[|old(translations)|])
    {
      var k := FindExisting(langId);
      ghost var before := View();
      UpsertPreservesInvariant(before, langId, text);
      if k < |translations| {
        UpsertAtFirstMatch(before, k, langId, text);
        assert translations[k] in translations;
        ReplaceTextAt(k, text);
        outcome := Pass;
      } else {
        var created := TranslationEntity.New(Some(Sid), langId, text);
        match created
        case Failure(e) =>
          outcome := Fail(e);
        case Success(t) =>
          Append(t);
          outcome := Pass;
      }
    }
  }
}
