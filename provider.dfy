/** The legacy translation provider over plain rows: a resource keyed by its Sid, child
    translations matched by exact Sid and language, and a commit after every change. */
module LegacyProvider {
  import opened Wrappers

  const DefaultLanguage := "default"

  /** A row of the legacy `Translations` table (its database-generated id left out). */
  datatype FlatTranslation = FlatTranslation(sid: string, langId: string, text: string)

  /** A legacy `TextResources` row with the translations that reference it. */
  datatype FlatResource = FlatResource(sid: string, translations: seq<FlatTranslation>)

  /** The commit failed on the primary key (a `DbUpdateException`). */
  datatype ProviderError = DuplicateSid

  /** The constraints of the legacy mapping: the Sid is the primary key, each translation
      references its resource's Sid, and (Sid, LangId) is unique. */
  predicate ValidStore(store: seq<FlatResource>) {
    && (forall i, j | 0 <= i < j < |store| :: store[i].sid != store[j].sid)
    && (forall i, a | 0 <= i < |store| && 0 <= a < |store[i].translations| ::
          store[i].translations[a].sid == store[i].sid)
    && (forall i, a, b | 0 <= i < |store| && 0 <= a < b < |store[i].translations| ::
          store[i].translations[a].langId != store[i].translations[b].langId)
  }

  /** The resource with this key, or None (`FindAsync` and `FirstOrDefaultAsync` on the key). */
  function FindResource(store: seq<FlatResource>, sid: string): (k: Option<nat>)
    ensures k.Some? ==> k.value < |store| && store[k.value].sid == sid
    ensures k.Some? ==> forall j | 0 <= j < k.value :: store[j].sid != sid
    ensures k.None? <==> forall j | 0 <= j < |store| :: store[j].sid != sid
  {
    if store == [] then None
    else if store[0].sid == sid then Some(0)
    else match FindResource(store[1..], sid)
      case Some(k) => Some(k + 1)
      case None => None
  }

  /** The position of the first translation whose language equals `langId` exactly. */
  function FindExact(ts: seq<FlatTranslation>, langId: string): (a: Option<nat>)
    ensures a.Some? ==> a.value < |ts| && ts[a.value].langId == langId
    ensures a.Some? ==> forall j | 0 <= j < a.value :: ts[j].langId != langId
    ensures a.None? <==> forall j | 0 <= j < |ts| :: ts[j].langId != langId
  {
    if ts == [] then None
    else if ts[0].langId == langId then Some(0)
    else match FindExact(ts[1..], langId)
      case Some(a) => Some(a + 1)
      case None => None
  }

  /** `GetDetailsAsync`: the resource with all its translations, or None (null). */
  function Details(store: seq<FlatResource>, sid: string): (r: Option<FlatResource>)
    ensures r.Some? <==> exists j | 0 <= j < |store| :: store[j].sid == sid
    ensures r.Some? ==> r.value in store && r.value.sid == sid
  {
    match FindResource(store, sid)
    case Some(k) => Some(store[k])
    case None => None
  }

  /** The store after `CreateSidAsync`: the new resource holding one `default` translation,
      or the primary-key failure when the Sid is taken. */
  function Created(store: seq<FlatResource>, sid: string, defaultText: string): Result<seq<FlatResource>, ProviderError> {
    if FindResource(store, sid).Some? then Failure(DuplicateSid)
    else Success(store + [FlatResource(sid, [FlatTranslation(sid, DefaultLanguage, defaultText)])])
  }

  /** The store after `UpdateTranslationAsync`, or None when no translation matches exactly
      (nothing is written then). */
  function Updated(store: seq<FlatResource>, sid: string, langId: string, text: string): Option<seq<FlatResource>> {
    match FindResource(store, sid)
    case None => None
    case Some(k) =>
      match FindExact(store[k].translations, langId)
      case None => None
      case Some(a) =>
        var ts := store[k].translations;
        Some(store[k := store[k].(translations := ts[a := ts[a].(text := text)])])
  }

  /** The store after `DeleteSidAsync`, or None when the key is absent. */
  function Deleted(store: seq<FlatResource>, sid: string): Option<seq<FlatResource>> {
    match FindResource(store, sid)
    case None => None
    case Some(k) => Some(store[..k] + store[k+1..])
  }

  /** A successful create keeps the constraints, and the new Sid then has exactly the
      `default` translation. */
  lemma {:induction false} CreatedStoreIsValid(store: seq<FlatResource>, sid: string, defaultText: string)
    requires ValidStore(store)
    ensures Created(store, sid, defaultText).Failure? <==> exists j | 0 <= j < |store| :: store[j].sid == sid
    ensures Created(store, sid, defaultText).Success? ==>
      var s := Created(store, sid, defaultText).value;
      && ValidStore(s)
      && Details(s, sid) == Some(FlatResource(sid, [FlatTranslation(sid, DefaultLanguage, defaultText)]))
  {
    if FindResource(store, sid).None? {
      var s := Created(store, sid, defaultText).value;
      assert forall j | 0 <= j < |store| :: s[j] == store[j] && s[j].sid != sid;
      assert s[|store|].sid == sid;
      assert FindResource(s, sid) == Some(|store|);
    }
  }

  /** An update changes only the text of the one exactly matching translation: no
      translation is added or removed and the constraints still hold. */
  lemma {:induction false} UpdatedStoreChangesOnlyText(store: seq<FlatResource>, sid: string, langId: string, text: string)
    requires ValidStore(store)
    ensures Updated(store, sid, langId, text).Some? ==>
      var s := Updated(store, sid, langId, text).value;
      && ValidStore(s) && |s| == |store|
      && forall i | 0 <= i < |s| :: s[i].sid == store[i].sid && |s[i].translations| == |store[i].translations|
    ensures Updated(store, sid, langId, text).Some? ==>
      var s := Updated(store, sid, langId, text).value;
      forall i, a | 0 <= i < |store| && 0 <= a < |store[i].translations| ::
        if store[i].translations[a].sid == sid && store[i].translations[a].langId == langId
        then s[i].translations[a] == FlatTranslation(sid, langId, text)
        else s[i].translations[a] == store[i].translations[a]
    ensures Updated(store, sid, langId, text).None? <==>
      forall i, a | 0 <= i < |store| && 0 <= a < |store[i].translations| ::
        !(store[i].translations[a].sid == sid && store[i].translations[a].langId == langId)
  {
    match FindResource(store, sid)
    case None =>
    case Some(k) =>
      match FindExact(store[k].translations, langId)
      case None =>
        forall i, a | 0 <= i < |store| && 0 <= a < |store[i].translations|
          ensures !(store[i].translations[a].sid == sid && store[i].translations[a].langId == langId)
        {
          if i != k {
            assert store[i].translations[a].sid == store[i].sid;
            if i < k { assert store[i].sid != store[k].sid; } else { assert store[k].sid != store[i].sid; }
          }
        }
      case Some(a0) =>
        var ts := store[k].translations;
        var s := store[k := store[k].(translations := ts[a0 := ts[a0].(text := text)])];
        assert ts[a0].sid == sid;
        forall i, a | 0 <= i < |store| && 0 <= a < |store[i].translations|
          ensures if store[i].translations[a].sid == sid && store[i].translations[a].langId == langId
            then s[i].translations[a] == FlatTranslation(sid, langId, text)
            else s[i].translations[a] == store[i].translations[a]
        {
          if store[i].translations[a].sid == sid && store[i].translations[a].langId == langId {
            assert store[i].sid == sid;
            assert !(i < k) && !(k < i);
            assert !(a < a0) && !(a0 < a);
          } else if i == k {
            assert a != a0;
          }
        }
  }

  /** An exact-match update of a language stored only under another casing writes nothing. */
  lemma ExactMatchIgnoresOtherCasing(sid: string, text: string, newText: string)
    ensures Updated([FlatResource(sid, [FlatTranslation(sid, "en-US", text)])], sid, "EN-us", newText) == None
  {
    assert "en-US" != "EN-us" by { assert "en-US"[0] != "EN-us"[0]; }
  }

  /** Deleting a Sid removes it with every translation that references it (the cascade) and
      keeps all other resources. */
  lemma {:induction false} DeletedStoreDropsTranslations(store: seq<FlatResource>, sid: string)
    requires ValidStore(store)
    ensures Deleted(store, sid).None? <==> Details(store, sid).None?
    ensures Deleted(store, sid).Some? ==>
      var s := Deleted(store, sid).value;
      && ValidStore(s) && |s| == |store| - 1 && Details(s, sid).None?
      && (forall i, a | 0 <= i < |s| && 0 <= a < |s[i].translations| :: s[i].translations[a].sid != sid)
      && forall r | r in store && r.sid != sid :: r in s
  {
    if FindResource(store, sid).Some? {
      var k := FindResource(store, sid).value;
      var s := Deleted(store, sid).value;
      assert forall i | 0 <= i < |s| :: s[i] == store[if i < k then i else i + 1];
      forall i | 0 <= i < |s| ensures s[i].sid != sid {
        var i' := if i < k then i else i + 1;
        if i' < k { assert store[i'].sid != store[k].sid; } else { assert store[k].sid != store[i'].sid; }
      }
      forall r | r in store && r.sid != sid ensures r in s {
        var j :| 0 <= j < |store| && store[j] == r;
        assert j != k;
        if j < k { assert s[j] == r; } else { assert s[j - 1] == r; }
      }
    }
  }

  class DbTranslationProvider {
    /** The committed legacy rows. */
    var resources: seq<FlatResource>
    /** How many times the context committed. */
    var saves: nat

    ghost predicate Valid()
      reads this
    {
      ValidStore(resources)
    }

    constructor (stored: seq<FlatResource>)
      requires ValidStore(stored)
      ensures Valid() && resources == stored && saves == 0
    {
      resources, saves := stored, 0;
    }

    /** `GetAllSidsAsync`: every key, in store order. */
    function GetAllSids(): (sids: seq<string>)
      reads this
      ensures |sids| == |resources| && forall i | 0 <= i < |resources| :: sids[i] == resources[i].sid
    {
      seq(|resources|, i requires 0 <= i < |resources| reads this => resources[i].sid)
    }

    /** `GetDetailsAsync`. */
    function GetDetails(sid: string): Option<FlatResource>
      reads this
    {
      Details(resources, sid)
    }

    /** `CreateSidAsync`: adds the resource with its `default` translation and commits; the
        commit fails on a taken Sid and then stores nothing. */
    method CreateSid(sid: string, defaultText: string) returns (outcome: Outcome<ProviderError>)
      requires Valid()
      modifies this
      ensures Valid() && saves == old(saves) + 1
      ensures Created(old(resources), sid, defaultText).Success? ==>
        outcome == Pass && resources == Created(old(resources), sid, defaultText).value
      ensures Created(old(resources), sid, defaultText).Failure? ==>
        outcome == Fail(DuplicateSid) && resources == old(resources)
    {
      CreatedStoreIsValid(resources, sid, defaultText);
      saves := saves + 1;
      var created := Created(resources, sid, defaultText);
      if created.Failure? {
        return Fail(created.error);
      }
      resources := created.value;
      return Pass;
    }

    /** `UpdateTranslationAsync`: sets the text of the translation matching the Sid and the
        language exactly and commits; with no match it neither inserts nor commits. */
    method UpdateTranslation(sid: string, langId: string, text: string)
      requires Valid()
      modifies this
      ensures Valid()
      ensures Updated(old(resources), sid, langId, text).Some? ==>
        resources == Updated(old(resources), sid, langId, text).value && saves == old(saves) + 1
      ensures Updated(old(resources), sid, langId, text).None? ==>
        resources == old(resources) && saves == old(saves)
    {
      UpdatedStoreChangesOnlyText(resources, sid, langId, text);
      var updated := Updated(resources, sid, langId, text);
      if updated.Some? {
        resources := updated.value;
        saves := saves + 1;
      }
    }

    /** `DeleteSidAsync`: removes the resource with this key, and by the cascade all its
        translations, and commits; a no-op when the key is absent. */
    method DeleteSid(sid: string)
      requires Valid()
      modifies this
      ensures Valid()
      ensures Deleted(old(resources), sid).Some? ==>
        resources == Deleted(old(resources), sid).value && saves == old(saves) + 1
      ensures Deleted(old(resources), sid).None? ==>
        resources == old(resources) && saves == old(saves)
    {
      DeletedStoreDropsTranslations(resources, sid);
      var deleted := Deleted(resources, sid);
      if deleted.Some? {
        resources := deleted.value;
        saves := saves + 1;
      }
    }
  }
}
