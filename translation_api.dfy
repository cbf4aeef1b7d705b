/** The translation REST controller over the aggregate repository: list, get, create, update
    and delete, each a small decision followed by at most one commit. */
module TranslationApi {
  import opened Wrappers
  import opened OrdinalText
  import opened TranslationEntities
  import opened TextResources
  import opened Repository

  datatype TranslationResponse = TranslationResponse(langId: string, text: Option<string>)
  datatype TextResourceResponse = TextResourceResponse(sid: string, translations: seq<TranslationResponse>)

  datatype CreateTranslationRequest = CreateTranslationRequest(sid: string, defaultText: string)
  datatype UpdateTranslationRequest = UpdateTranslationRequest(text: string)

  /** An exception escaping a handler (the framework answers 500). */
  datatype Failure = DomainFailure(domain: DomainError) | StoreFailure(store: StoreError)

  /** The action results the handlers produce. */
  datatype ActionResult<T> =
    | Ok(value: T)
    | NotFound
    | Conflict(message: string)
    | CreatedAt(actionName: string, routeSid: string, body: T)
    | NoContent
    | Thrown(failure: Failure)

  const DefaultLanguage := "default"
  const SidExistsMessage := "SID already exists"
  const GetActionName := "Get"

  /** `MapToDto`: the Sid and the (LangId, Text) pair of every translation, in order. */
  function MapToDto(r: Resource): (d: TextResourceResponse)
    ensures d.sid == r.sid && |d.translations| == |r.translations|
    ensures forall i | 0 <= i < |r.translations| ::
      d.translations[i].langId == r.translations[i].langId && d.translations[i].text == r.translations[i].text
  {
    TextResourceResponse(r.sid, seq(|r.translations|, i requires 0 <= i < |r.translations| =>
      TranslationResponse(r.translations[i].langId, r.translations[i].text)))
  }

  /** The resource a successful `Create` stores: one `default` translation holding the text. */
  function CreatedResource(newId: Guid, req: CreateTranslationRequest): Resource {
    Resource(newId, req.sid, [Translation(UnsavedId, req.sid, DefaultLanguage, Some(req.defaultText))])
  }

  /** After an upsert of (langId, text), the response for the resource lists exactly one
      translation for that language ignoring case, and it carries the text. */
  lemma {:induction false} UpsertShowsInResponse(r: Resource, langId: string, text: string)
    requires ValidResource(r)
    requires Upsert(r, Some(langId), Some(text)).Success?
    ensures var d := MapToDto(Upsert(r, Some(langId), Some(text)).value);
      && (exists k | 0 <= k < |d.translations| ::
            SameIgnoringCase(d.translations[k].langId, langId) && d.translations[k].text == Some(text))
      && forall i, j | 0 <= i < j < |d.translations| ::
            !(SameIgnoringCase(d.translations[i].langId, langId) && SameIgnoringCase(d.translations[j].langId, langId))
  {
    var u := Upsert(r, Some(langId), Some(text)).value;
    UpsertPreservesInvariant(r, Some(langId), Some(text));
    var d := MapToDto(u);
    match FindLanguage(r.translations, Some(langId))
    case Some(k) =>
      assert SameIgnoringCase(d.translations[k].langId, langId) && d.translations[k].text == Some(text);
    case None =>
      var k := |r.translations|;
      assert SameIgnoringCase(d.translations[k].langId, langId) && d.translations[k].text == Some(text);
    forall i, j | 0 <= i < j < |d.translations|
      ensures !(SameIgnoringCase(d.translations[i].langId, langId) && SameIgnoringCase(d.translations[j].langId, langId))
    {
      assert !SameIgnoringCase(u.translations[i].langId, u.translations[j].langId);
    }
  }

  /** A new resource can be stored exactly when its id and Sid are new and the Sid fits its
      column; the `default` translation always fits. */
  lemma {:induction false} CreatedResourceFits(rows: seq<Resource>, newId: Guid, req: CreateTranslationRequest)
    requires SatisfiesSchema(rows) && newId != EmptyGuid && !IsBlank(req.sid)
    requires FindBySid(rows, req.sid).None?
    ensures SatisfiesSchema(rows + [CreatedResource(newId, req)]) <==>
      newId !in IdsOf(rows) && |req.sid| <= SidMaxLength
  {
    var c := CreatedResource(newId, req);
    assert !IsBlank(DefaultLanguage) by { assert !IsWhiteSpace(DefaultLanguage[0]); }
    assert ValidResource(c);
    InsertKeepsSchema(rows, c);
  }

  /** Replacing a stored row by its upsert keeps the constraints unless the upsert adds a
      language longer than the column allows. */
  lemma {:induction false} UpsertedRowFits(rows: seq<Resource>, k: nat, langId: string, text: string)
    requires SatisfiesSchema(rows) && AllValid(rows) && k < |rows|
    requires Upsert(rows[k], Some(langId), Some(text)).Success?
    ensures SatisfiesSchema(rows[k := Upsert(rows[k], Some(langId), Some(text)).value]) <==>
      FindLanguage(rows[k].translations, Some(langId)).Some? || |langId| <= LangIdMaxLength
  {
    var v := Upsert(rows[k], Some(langId), Some(text)).value;
    assert ValidResource(rows[k]);
    UpsertPreservesInvariant(rows[k], Some(langId), Some(text));
    UpsertKeepsSchema(rows, k, v);
    assert RowFitsColumns(rows[k]);
    if FindLanguage(rows[k].translations, Some(langId)).None? {
      assert v.translations[|v.translations| - 1].langId == langId;
    }
  }

  /** `List`: one response per stored resource, in store order; nothing changes. */
  method List(repo: DbTranslationRepository) returns (result: ActionResult<seq<TextResourceResponse>>)
    ensures result.Ok? && |result.value| == |repo.rows|
    ensures forall i | 0 <= i < |repo.rows| :: result.value[i] == MapToDto(repo.rows[i])
  {
    var entities := repo.GetAllTextResource();
    var dtos := seq(|entities|, i requires 0 <= i < |entities| => MapToDto(entities[i]));
    return Ok(dtos);
  }

  /** `Get`: NotFound for an unknown Sid, otherwise the response for the stored resource.
      The context now tracks that aggregate; nothing is stored. */
  method Get(repo: DbTranslationRepository, sid: string) returns (result: ActionResult<TextResourceResponse>)
    requires repo.Valid() && repo.Idle()
    modifies repo
    ensures repo.Valid() && repo.rows == old(repo.rows) && repo.saves == old(repo.saves)
    ensures FindBySid(repo.rows, sid).None? ==> result == NotFound
    ensures FindBySid(repo.rows, sid).Some? ==> result == Ok(MapToDto(repo.rows[FindBySid(repo.rows, sid).value]))
  {
    var resource := repo.GetBySid(sid);
    if resource == null {
      return NotFound;
    }
    return Ok(MapToDto(resource.View()));
  }

  /** `Create`: Conflict when the Sid is stored already; otherwise the constructor's check on
      the Sid, then one commit of the new resource with its `default` translation. */
  method Create(repo: DbTranslationRepository, req: CreateTranslationRequest, newId: Guid)
    returns (result: ActionResult<TextResourceResponse>)
    requires repo.Valid() && repo.Idle() && newId != EmptyGuid
    modifies repo
    ensures repo.Valid()
    ensures FindBySid(old(repo.rows), req.sid).Some? ==>
      result == Conflict(SidExistsMessage) && repo.rows == old(repo.rows) && repo.saves == old(repo.saves)
    ensures FindBySid(old(repo.rows), req.sid).None? && IsBlank(req.sid) ==>
      result == Thrown(DomainFailure(SidRequired)) && repo.rows == old(repo.rows) && repo.saves == old(repo.saves)
    ensures FindBySid(old(repo.rows), req.sid).None? && !IsBlank(req.sid) ==>
      var created := CreatedResource(newId, req);
      && repo.saves == old(repo.saves) + 1
      && (SatisfiesSchema(old(repo.rows) + [created]) ==>
            repo.rows == old(repo.rows) + [created] && result == CreatedAt(GetActionName, req.sid, MapToDto(created)))
      && (!SatisfiesSchema(old(repo.rows) + [created]) ==>
            repo.rows == old(repo.rows) && result == Thrown(StoreFailure(ConstraintViolation)))
  {
    var existing := repo.GetBySid(req.sid);
    if existing != null {
      return Conflict(SidExistsMessage);
    }
    var made := TextResourceEntity.New(Some(req.sid), newId);
    if made.Failure? {
      return Thrown(DomainFailure(made.error));
    }
    var resource := made.value;
    assert !IsBlank(DefaultLanguage) by { assert !IsWhiteSpace(DefaultLanguage[0]); }
    var added := resource.AddOrUpdateTranslation(Some(DefaultLanguage), Some(req.defaultText));
    assert resource.View() == CreatedResource(newId, req);
    assert repo.tracked == [];
    repo.AddAsync(resource);
    assert EntityValues(repo.tracked) == [resource.View()];
    StagedInsert(repo.rows, resource.View());
    assert repo.states == [Added] && repo.rows == old(repo.rows);
    assert repo.Pending() == old(repo.rows) + [CreatedResource(newId, req)];
    ghost var view := resource.View();
    var saved := repo.SaveChanges();
    assert resource.View() == view;
    if saved.Fail? {
      return Thrown(StoreFailure(saved.error));
    }
    return CreatedAt(GetActionName, resource.Sid, MapToDto(resource.View()));
  }

  /** `Update`: NotFound for an unknown Sid; otherwise the aggregate upsert of (langId, text)
      and, unless the upsert throws, one commit of the changed resource. */
  method Update(repo: DbTranslationRepository, sid: string, langId: string, req: UpdateTranslationRequest)
    returns (result: ActionResult<()>)
    requires repo.Valid() && repo.Idle()
    modifies repo
    ensures repo.Valid()
    ensures FindBySid(old(repo.rows), sid).None? ==>
      result == NotFound && repo.rows == old(repo.rows) && repo.saves == old(repo.saves)
    ensures FindBySid(old(repo.rows), sid).Some? ==>
      var k := FindBySid(old(repo.rows), sid).value;
      var up := Upsert(old(repo.rows)[k], Some(langId), Some(req.text));
      && (up.Failure? ==>
            result == Thrown(DomainFailure(up.error)) && repo.rows == old(repo.rows) && repo.saves == old(repo.saves))
      && (up.Success? ==> repo.saves == old(repo.saves) + 1)
      && (up.Success? && SatisfiesSchema(old(repo.rows)[k := up.value]) ==>
            result == NoContent && repo.rows == old(repo.rows)[k := up.value])
      && (up.Success? && !SatisfiesSchema(old(repo.rows)[k := up.value]) ==>
            result == Thrown(StoreFailure(ConstraintViolation)) && repo.rows == old(repo.rows))
  {
    var resource := repo.GetBySid(sid);
    if resource == null {
      return NotFound;
    }
    ghost var k := FindBySid(repo.rows, sid).value;
    assert old(repo.TrackedFor(sid)).None?;
    assert resource in resource.Repr() && forall t | t in resource.translations :: t in resource.Repr();
    assert fresh(resource.Repr());
    var upserted := resource.AddOrUpdateTranslation(Some(langId), Some(req.text));
    if upserted.Fail? {
      return Thrown(DomainFailure(upserted.error));
    }
    result := SaveUpdated(repo, resource, k);
  }

  /** The commit that ends `Update`: the one tracked aggregate, loaded from row `k` and changed
      since, replaces that row when the store accepts it. */
  method SaveUpdated(repo: DbTranslationRepository, resource: TextResourceEntity, ghost k: nat)
    returns (result: ActionResult<()>)
    requires repo.Valid() && repo.tracked == [resource] && repo.states == [Persisted]
    requires k < |repo.rows| && resource.View().id == repo.rows[k].id
    modifies repo
    ensures repo.Valid() && repo.saves == old(repo.saves) + 1
    ensures SatisfiesSchema(old(repo.rows)[k := resource.View()]) ==>
      result == NoContent && repo.rows == old(repo.rows)[k := resource.View()]
    ensures !SatisfiesSchema(old(repo.rows)[k := resource.View()]) ==>
      result == Thrown(StoreFailure(ConstraintViolation)) && repo.rows == old(repo.rows)
  {
    StagedUpdate(repo.rows, k, resource.View());
    assert EntityValues(repo.tracked) == [resource.View()];
    assert repo.Pending() == repo.rows[k := resource.View()];
    ghost var view := resource.View();
    var saved := repo.SaveChanges();
    assert resource.View() == view;
    if saved.Fail? {
      return Thrown(StoreFailure(saved.error));
    }
    return NoContent;
  }

  /** `Delete`: NotFound for an unknown Sid; otherwise the resource's removal, with its
      translations, in one commit. */
  method Delete(repo: DbTranslationRepository, sid: string) returns (result: ActionResult<()>)
    requires repo.Valid() && repo.Idle()
    modifies repo
    ensures repo.Valid()
    ensures FindBySid(old(repo.rows), sid).None? ==>
      result == NotFound && repo.rows == old(repo.rows) && repo.saves == old(repo.saves)
    ensures FindBySid(old(repo.rows), sid).Some? ==>
      var k := FindBySid(old(repo.rows), sid).value;
      && result == NoContent && repo.saves == old(repo.saves) + 1
      && repo.rows == old(repo.rows)[..k] + old(repo.rows)[k+1..]
  {
    var resource := repo.GetBySid(sid);
    if resource == null {
      return NotFound;
    }
    ghost var k := FindBySid(repo.rows, sid).value;
    assert FindBySid(repo.rows, resource.Sid) == Some(k);
    assert old(repo.TrackedFor(sid)).None? && repo.TrackedFor(resource.Sid) == Some(0);
    repo.DeleteBySid(resource.Sid);
    assert repo.tracked == [resource] && repo.states == [Deleted];
    assert EntityValues(repo.tracked) == [resource.View()];
    StagedDelete(repo.rows, k, resource.View());
    RemovalKeepsSchema(repo.rows, k);
    var saved := repo.SaveChanges();
    return NoContent;
  }
}
