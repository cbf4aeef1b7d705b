/** The translation controller of the original backend. `Get`, `Create`, `Update` and `Delete`
    are the same decisions over the same repository as in the API project and are modelled by
    `TranslationApi`; only `List` differs: it answers the stored Sids instead of full resources. */
module LegacyTranslationApi {
  import opened Wrappers
  import opened TextResources
  import opened Repository
  import opened TranslationApi

  /** `List`: the Sid of every stored resource, in store order; nothing changes. */
  method List(repo: DbTranslationRepository) returns (result: ActionResult<seq<string>>)
    ensures result.Ok? && |result.value| == |repo.rows|
    ensures forall i | 0 <= i < |repo.rows| :: result.value[i] == repo.rows[i].sid
  {
    var sids := repo.GetAllSids();
    return Ok(sids);
  }

  /** With the unique Sid index of the store, every listed Sid leads `Get` back to exactly the
      row it was listed for, and a Sid is listed exactly when `Get` finds it. */
  lemma {:induction false} ListedSidsResolve(rows: seq<Resource>)
    requires UniqueSids(rows)
    ensures forall i | 0 <= i < |rows| :: FindBySid(rows, rows[i].sid) == Some(i)
    ensures forall sid: string :: FindBySid(rows, sid).Some? <==> exists i | 0 <= i < |rows| :: rows[i].sid == sid
  {
    forall i | 0 <= i < |rows|
      ensures FindBySid(rows, rows[i].sid) == Some(i)
    {
      var k := FindBySid(rows, rows[i].sid);
      assert k.Some?;
      assert !(i < k.value);
      assert !(k.value < i);
    }
  }
}
