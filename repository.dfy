/** The aggregate repository over an Entity Framework unit of work: committed rows, the change
    tracker's entries, and the commit that writes them under the database constraints. */
module Repository {
  import opened Wrappers
  import opened OrdinalText
  import opened TranslationEntities
  import opened TextResources

  /** Column widths of the mapping. */
  const SidMaxLength: nat := 255
  const LangIdMaxLength: nat := 10

  /** The database rejected a commit (a `DbUpdateException`). */
  datatype StoreError = ConstraintViolation

  /** The change tracker's state of an entry: loaded from the database (and possibly changed
      since), staged for insertion, or staged for deletion. */
  datatype EntryState = Persisted | Added | Deleted

  predicate UniqueIds(rows: seq<Resource>) {
    forall i, j | 0 <= i < j < |rows| :: rows[i].id != rows[j].id
  }

  predicate UniqueSids(rows: seq<Resource>) {
    forall i, j | 0 <= i < j < |rows| :: rows[i].sid != rows[j].sid
  }

  /** The unique (Sid, LangId) index within one resource's translations. */
  predicate ExactlyUniqueLanguages(ts: seq<Translation>) {
    forall i, j | 0 <= i < j < |ts| :: ts[i].langId != ts[j].langId
  }

  /** A stored resource row within the column constraints: required, bounded Sid; every
      translation references the resource's Sid and has a bounded language and a text. */
  predicate RowFitsColumns(r: Resource) {
    && |r.sid| <= SidMaxLength
    && forall i | 0 <= i < |r.translations| ::
         && r.translations[i].sid == r.sid
         && |r.translations[i].langId| <= LangIdMaxLength
         && r.translations[i].text.Some?
  }

  /** Every constraint the mapping declares: the Guid primary key, the unique Sid, column
      widths and required columns, the foreign key to the Sid and the unique (Sid, LangId). */
  predicate SatisfiesSchema(rows: seq<Resource>) {
    && UniqueIds(rows)
    && UniqueSids(rows)
    && forall i | 0 <= i < |rows| :: RowFitsColumns(rows[i]) && ExactlyUniqueLanguages(rows[i].translations)
  }

  /** Every row is a valid aggregate. */
  predicate AllValid(rows: seq<Resource>) {
    forall i | 0 <= i < |rows| :: ValidResource(rows[i])
  }

  /** `FirstOrDefault(r => r.Sid == sid)`: the index of the row with this Sid, or None. */
  function FindBySid(rows: seq<Resource>, sid: string): (k: Option<nat>)
    ensures k.Some? ==> k.value < |rows| && rows[k.value].sid == sid
    ensures k.Some? ==> forall j | 0 <= j < k.value :: rows[j].sid != sid
    ensures k.None? <==> forall j | 0 <= j < |rows| :: rows[j].sid != sid
  {
    if rows == [] then None
    else if rows[0].sid == sid then Some(0)
    else match FindBySid(rows[1..], sid)
      case Some(k) => Some(k + 1)
      case None => None
  }

  /** The first position holding `id`, or None. */
  function IndexOfId(ids: seq<Guid>, id: Guid): (k: Option<nat>)
    ensures k.Some? ==> k.value < |ids| && ids[k.value] == id
    ensures k.Some? ==> forall j | 0 <= j < k.value :: ids[j] != id
    ensures k.None? <==> id !in ids
  {
    if ids == [] then None
    else if ids[0] == id then Some(0)
    else match IndexOfId(ids[1..], id)
      case Some(k) => Some(k + 1)
      case None => None
  }

  function IdsOf(vals: seq<Resource>): (ids: seq<Guid>)
    ensures |ids| == |vals| && forall i | 0 <= i < |vals| :: ids[i] == vals[i].id
  {
    seq(|vals|, i requires 0 <= i < |vals| => vals[i].id)
  }

  /** The stored rows after the tracked entries are written: a row whose first tracked
      entry is persisted takes that entry's value, one whose entry is deleted is dropped
      with its translations (the cascade), and every other row stays. */
  function Carry(rows: seq<Resource>, vals: seq<Resource>, states: seq<EntryState>): (r: seq<Resource>)
    requires |vals| == |states|
    ensures |r| <= |rows|
  {
    if rows == [] then []
    else
      var rest := Carry(rows[1..], vals, states);
      match IndexOfId(IdsOf(vals), rows[0].id)
      case None => [rows[0]] + rest
      case Some(i) =>
        if states[i] == Persisted then [vals[i]] + rest
        else if states[i] == Deleted then rest
        else [rows[0]] + rest
  }

  /** The values of the entries staged for insertion, in tracking order. */
  function Inserted(vals: seq<Resource>, states: seq<EntryState>): (r: seq<Resource>)
    requires |vals| == |states|
    ensures forall v | v in r :: v in vals
  {
    if vals == [] then []
    else (if states[0] == Added then [vals[0]] else []) + Inserted(vals[1..], states[1..])
  }

  /** What a commit would write. */
  function Staged(rows: seq<Resource>, vals: seq<Resource>, states: seq<EntryState>): seq<Resource>
    requires |vals| == |states|
  {
    Carry(rows, vals, states) + Inserted(vals, states)
  }

  /** Every row a commit writes is a valid aggregate when the stored rows and the tracked
      values are. */
  lemma {:induction false} StagedRowsAreValid(rows: seq<Resource>, vals: seq<Resource>, states: seq<EntryState>)
    requires |vals| == |states|
    requires AllValid(rows)
    requires AllValid(vals)
    ensures AllValid(Staged(rows, vals, states))
  {
    CarriedRowsAreValid(rows, vals, states);
    InsertedRowsAreValid(vals, states);
    var c, n := Carry(rows, vals, states), Inserted(vals, states);
    assert forall i | 0 <= i < |c + n| :: (c + n)[i] == if i < |c| then c[i] else n[i - |c|];
  }

  lemma {:induction false} CarriedRowsAreValid(rows: seq<Resource>, vals: seq<Resource>, states: seq<EntryState>)
    requires |vals| == |states|
    requires AllValid(rows)
    requires AllValid(vals)
    ensures AllValid(Carry(rows, vals, states))
  {
    if rows != [] {
      CarriedRowsAreValid(rows[1..], vals, states);
      var rest := Carry(rows[1..], vals, states);
      var s := Carry(rows, vals, states);
      match IndexOfId(IdsOf(vals), rows[0].id)
      case None =>
        assert s == [rows[0]] + rest;
      case Some(i) =>
        assert ValidResource(vals[i]);
    }
  }

  lemma {:induction false} InsertedRowsAreValid(vals: seq<Resource>, states: seq<EntryState>)
    requires |vals| == |states|
    requires AllValid(vals)
    ensures AllValid(Inserted(vals, states))
  {
    var s := Inserted(vals, states);
    forall i | 0 <= i < |s|
      ensures ValidResource(s[i])
    {
      assert s[i] in s;
    }
  }

  /** With nothing tracked a commit writes the stored rows back unchanged. */
  lemma {:induction false} StagedNothing(rows: seq<Resource>)
    ensures Staged(rows, [], []) == rows
  {
    if rows != [] {
      StagedNothing(rows[1..]);
      assert Carry(rows, [], []) == [rows[0]] + Carry(rows[1..], [], []);
    }
  }

  /** A single added aggregate is appended after the stored rows. */
  lemma {:induction false} StagedInsert(rows: seq<Resource>, v: Resource)
    ensures Staged(rows, [v], [Added]) == rows + [v]
  {
    CarryKeepsRowsFor(rows, v, Added);
    assert Inserted([v], [Added]) == [v] + Inserted([], []);
  }

  lemma {:induction false} CarryKeepsRowsFor(rows: seq<Resource>, v: Resource, st: EntryState)
    requires st == Added || forall i | 0 <= i < |rows| :: rows[i].id != v.id
    ensures Carry(rows, [v], [st]) == rows
  {
    if rows != [] {
      CarryKeepsRowsFor(rows[1..], v, st);
    }
  }

  /** A single persisted aggregate replaces the stored row with its id. */
  lemma {:induction false} StagedUpdate(rows: seq<Resource>, k: nat, v: Resource)
    requires UniqueIds(rows) && k < |rows| && rows[k].id == v.id
    ensures Staged(rows, [v], [Persisted]) == rows[k := v]
  {
    CarryOne(rows, k, v, Persisted);
    assert Inserted([v], [Persisted]) == Inserted([], []);
    assert rows[..k] + [v] + rows[k+1..] == rows[k := v];
  }

  /** A single deleted aggregate's row is removed, and no other. */
  lemma {:induction false} StagedDelete(rows: seq<Resource>, k: nat, v: Resource)
    requires UniqueIds(rows) && k < |rows| && rows[k].id == v.id
    ensures Staged(rows, [v], [Deleted]) == rows[..k] + rows[k+1..]
  {
    CarryOne(rows, k, v, Deleted);
    assert Inserted([v], [Deleted]) == Inserted([], []);
  }

  lemma {:induction false} CarryOne(rows: seq<Resource>, k: nat, v: Resource, st: EntryState)
    requires st != Added
    requires UniqueIds(rows) && k < |rows| && rows[k].id == v.id
    ensures Carry(rows, [v], [st]) == rows[..k] + (if st == Persisted then [v] else []) + rows[k+1..]
  {
    assert IdsOf([v]) == [v.id];
    if k == 0 {
      CarryKeepsRowsFor(rows[1..], v, st);
      assert rows[1..] == rows[k+1..];
    } else {
      CarryOne(rows[1..], k - 1, v, st);
      assert rows[1..][..k-1] == rows[1..k];
      assert rows[1..][k..] == rows[k+1..];
      assert rows[..k] == [rows[0]] + rows[1..k];
    }
  }

  /** The aggregate invariant of every row, with unique Sids, already implies the unique
      (Sid, LangId) index over the whole translations table. */
  lemma {:induction false} AggregatesSatisfyPairIndex(rows: seq<Resource>)
    requires UniqueSids(rows)
    requires AllValid(rows)
    ensures forall i, a, j, b |
      0 <= i < |rows| && 0 <= j < |rows| && 0 <= a < |rows[i].translations| && 0 <= b < |rows[j].translations|
      && (i, a) != (j, b) ::
      (rows[i].translations[a].sid, rows[i].translations[a].langId)
        != (rows[j].translations[b].sid, rows[j].translations[b].langId)
  {
    forall i, a, j, b |
      0 <= i < |rows| && 0 <= j < |rows| && 0 <= a < |rows[i].translations| && 0 <= b < |rows[j].translations|
      && (i, a) != (j, b)
      ensures (rows[i].translations[a].sid, rows[i].translations[a].langId)
        != (rows[j].translations[b].sid, rows[j].translations[b].langId)
    {
      if i == j {
        UniqueLanguagesAreExactlyUnique(rows[i]);
        if a > b {
          assert rows[i].translations[b].langId != rows[i].translations[a].langId;
        }
      } else if i < j {
        assert rows[i].sid != rows[j].sid;
      } else {
        assert rows[j].sid != rows[i].sid;
      }
    }
  }

  /** Removing a row keeps every constraint. */
  lemma {:induction false} RemovalKeepsSchema(rows: seq<Resource>, k: nat)
    requires SatisfiesSchema(rows) && k < |rows|
    ensures SatisfiesSchema(rows[..k] + rows[k+1..])
  {
    var s := rows[..k] + rows[k+1..];
    assert forall i | 0 <= i < |s| :: s[i] == rows[if i < k then i else i + 1];
  }

  /** After the row is removed, no stored translation references its Sid any more. */
  lemma {:induction false} RemovalDropsTranslations(rows: seq<Resource>, k: nat)
    requires SatisfiesSchema(rows) && k < |rows|
    ensures var s := rows[..k] + rows[k+1..];
      forall i, a | 0 <= i < |s| && 0 <= a < |s[i].translations| :: s[i].translations[a].sid != rows[k].sid
  {
    var s := rows[..k] + rows[k+1..];
    forall i, a | 0 <= i < |s| && 0 <= a < |s[i].translations|
      ensures s[i].translations[a].sid != rows[k].sid
    {
      var i' := if i < k then i else i + 1;
      assert s[i] == rows[i'];
      assert RowFitsColumns(rows[i']);
      if i' < k {
        assert rows[i'].sid != rows[k].sid;
      } else {
        assert rows[k].sid != rows[i'].sid;
      }
    }
  }

  /** Replacing a row by a valid upsert of it keeps every constraint exactly when the new row
      fits the columns. */
  lemma {:induction false} UpsertKeepsSchema(rows: seq<Resource>, k: nat, v: Resource)
    requires SatisfiesSchema(rows) && k < |rows|
    requires ValidResource(v) && v.id == rows[k].id && v.sid == rows[k].sid
    ensures SatisfiesSchema(rows[k := v]) <==> RowFitsColumns(v)
  {
    UniqueLanguagesAreExactlyUnique(v);
    var s := rows[k := v];
    if RowFitsColumns(v) {
      forall i, j | 0 <= i < j < |s|
        ensures s[i].id != s[j].id && s[i].sid != s[j].sid
      {
        assert rows[i].id != rows[j].id && rows[i].sid != rows[j].sid;
      }
    } else {
      assert !RowFitsColumns(s[k]);
    }
  }

  /** Appending a new valid aggregate keeps every constraint exactly when its id and Sid are
      new and it fits the columns. */
  lemma {:induction false} InsertKeepsSchema(rows: seq<Resource>, v: Resource)
    requires SatisfiesSchema(rows) && ValidResource(v)
    ensures SatisfiesSchema(rows + [v]) <==>
      v.id !in IdsOf(rows) && FindBySid(rows, v.sid).None? && RowFitsColumns(v)
  {
    UniqueLanguagesAreExactlyUnique(v);
    var s := rows + [v];
    if SatisfiesSchema(s) {
      forall i | 0 <= i < |rows| ensures rows[i].id != v.id && rows[i].sid != v.sid {
        assert s[i] == rows[i] && s[|rows|] == v;
      }
      assert RowFitsColumns(s[|rows|]);
    }
  }

  /** The objects of a list of aggregates. */
  ghost function Footprint(es: seq<TextResourceEntity>): (fp: set<object>)
    reads es
    ensures forall e | e in es :: e in fp
    ensures forall e, t | e in es && t in e.translations :: t in fp
    ensures es != [] ==> Footprint(es[1..]) <= fp
  {
    assert es != [] ==> forall e | e in es[1..] :: e in es;
    (set e | e in es :: e as object) + (set e, t | e in es && t in e.translations :: t as object)
  }

  /** The current values of a list of aggregates. */
  function EntityValues(es: seq<TextResourceEntity>): (vs: seq<Resource>)
    reads es, Footprint(es)
    ensures |vs| == |es|
    ensures forall i | 0 <= i < |es| :: vs[i] == es[i].View()
  {
    if es == [] then []
    else
      [es[0].View()] + EntityValues(es[1..])
  }

  /** The ids of tracked aggregates; `Id` never changes, so no state is read. */
  function TrackedIds(es: seq<TextResourceEntity>): (ids: seq<Guid>)
    ensures |ids| == |es| && forall i | 0 <= i < |es| :: ids[i] == es[i].Id
  {
    seq(|es|, i requires 0 <= i < |es| => es[i].Id)
  }

  /** The entries a successful commit keeps tracking: all but the deleted ones. */
  function Survivors(es: seq<TextResourceEntity>, states: seq<EntryState>): (r: seq<TextResourceEntity>)
    requires |es| == |states|
    ensures forall e | e in r :: e in es
  {
    if es == [] then []
    else (if states[0] != Deleted then [es[0]] else []) + Survivors(es[1..], states[1..])
  }

  /** The first entry of an object in a list that holds it. */
  function EntryOf(es: seq<TextResourceEntity>, e: TextResourceEntity): (i: nat)
    requires e in es
    ensures i < |es| && es[i] == e && forall j | 0 <= j < i :: es[j] != e
  {
    if es[0] == e then 0 else 1 + EntryOf(es[1..], e)
  }

  function AllPersisted(n: nat): (r: seq<EntryState>)
    ensures |r| == n && forall i | 0 <= i < n :: r[i] == Persisted
  {
    seq(n, _ => Persisted)
  }

  class DbTranslationRepository {
    /** The committed `text_resources` rows with their translations. */
    var rows: seq<Resource>
    /** The change tracker: one entry per tracked aggregate, with its state. */
    var tracked: seq<TextResourceEntity>
    var states: seq<EntryState>
    /** How many times `SaveChangesAsync` has been called. */
    var saves: nat

    ghost predicate Valid()
      reads this, tracked, Footprint(tracked)
    {
      && |states| == |tracked|
      && SatisfiesSchema(rows)
      && AllValid(rows)
      && (forall e | e in tracked :: e.Valid())
      && (forall e, f | e in tracked && f in tracked && e != f :: e.Repr() !! f.Repr())
    }

    /** A context as the request scope creates it: nothing tracked yet. */
    predicate Idle()
      reads this
    {
      tracked == [] && states == []
    }

    /** What a commit would write now. */
    function Pending(): seq<Resource>
      reads this, tracked, Footprint(tracked)
      requires |states| == |tracked|
    {
      Staged(rows, EntityValues(tracked), states)
    }

    /** The change-tracker entry of the stored row with this Sid, if that row's id is
        tracked. */
    function TrackedFor(sid: string): Option<nat>
      reads this
    {
      match FindBySid(rows, sid)
      case None => None
      case Some(k) => IndexOfId(TrackedIds(tracked), rows[k].id)
    }

    /** The objects of the tracked aggregate for `sid`, if there is one. */
    ghost function TrackedRepr(sid: string): set<object>
      reads this, tracked
    {
      match TrackedFor(sid)
      case Some(i) => tracked[i].Repr()
      case None => {}
    }

    /** A context over a database holding `stored`. */
    constructor (stored: seq<Resource>)
      requires SatisfiesSchema(stored) && AllValid(stored)
      ensures Valid() && Idle() && rows == stored && saves == 0
    {
      rows, tracked, states, saves := stored, [], [], 0;
    }

    /** Starts tracking an aggregate that shares no object with the tracked ones. */
    method Track(e: TextResourceEntity, st: EntryState)
      requires Valid() && e.Valid()
      requires forall f | f in tracked :: e.Repr() !! f.Repr()
      modifies this
      ensures Valid() && rows == old(rows) && saves == old(saves)
      ensures tracked == old(tracked) + [e] && states == old(states) + [st]
    {
      tracked, states := tracked + [e], states + [st];
    }

    /** `GetAllSidsAsync`: the Sid of every stored row, in store order. */
    function GetAllSids(): (sids: seq<string>)
      reads this
      ensures |sids| == |rows| && forall i | 0 <= i < |rows| :: sids[i] == rows[i].sid
    {
      seq(|rows|, i requires 0 <= i < |rows| reads this => rows[i].sid)
    }

    /** `GetAllTextResource`: every stored aggregate, in store order. */
    function GetAllTextResource(): seq<Resource>
      reads this
    {
      rows
    }

    /** `GetBySidAsync`: null when no row has this Sid; the tracked instance when the row's
        id is already tracked (identity resolution); otherwise a fresh aggregate loaded from
        the row with all its translations, tracked as persisted. */
    method GetBySid(sid: string) returns (r: TextResourceEntity?)
      requires Valid()
      modifies this
      ensures Valid() && rows == old(rows) && saves == old(saves)
      ensures r == null <==> FindBySid(rows, sid).None?
      ensures r == null ==> tracked == old(tracked) && states == old(states)
      ensures old(TrackedFor(sid)).Some? ==>
        r == old(tracked[TrackedFor(sid).value]) && tracked == old(tracked) && states == old(states)
      ensures r != null && old(TrackedFor(sid)).None? ==>
        && fresh(r.Repr()) && r.View() == rows[FindBySid(rows, sid).value]
        && tracked == old(tracked) + [r] && states == old(states) + [Persisted]
      ensures r != null ==> TrackedFor(sid).Some? && tracked[TrackedFor(sid).value] == r && r.Valid()
    {
      var k := FindBySid(rows, sid);
      if k.None? {
        return null;
      }
      var i := TrackedFor(sid);
      if i.Some? {
        r := tracked[i.value];
        return;
      }
      r := new TextResourceEntity.FromRow(rows[k.value]);
      Track(r, Persisted);
      assert TrackedIds(tracked) == TrackedIds(old(tracked)) + [r.Id];
    }

    /** `AddAsync`: stages a new aggregate for insertion; nothing is stored yet. */
    method AddAsync(e: TextResourceEntity)
      requires Valid() && e.Valid()
      requires forall f | f in tracked :: e.Repr() !! f.Repr()
      modifies this
      ensures Valid() && rows == old(rows) && saves == old(saves)
      ensures tracked == old(tracked) + [e] && states == old(states) + [Added]
    {
      Track(e, Added);
    }

    /** Applies the aggregate upsert to one tracked aggregate; the others keep their values. */
    method UpsertTracked(e: TextResourceEntity, langId: Option<string>, text: Option<string>)
      returns (outcome: Outcome<DomainError>)
      requires Valid() && e in tracked
      modifies e.Repr()
      ensures Valid()
      ensures Upsert(old(e.View()), langId, text).Success? ==>
        outcome == Pass && e.View() == Upsert(old(e.View()), langId, text).value
      ensures Upsert(old(e.View()), langId, text).Failure? ==>
        outcome == Fail(Upsert(old(e.View()), langId, text).error) && e.View() == old(e.View())
    {
      ghost var before := e.Repr();
      assert e in before && forall t | t in e.translations :: t in before;
      assert forall f | f in tracked && f != e :: f.Repr() !! before;
      outcome := e.AddOrUpdateTranslation(langId, text);
      forall f | f in tracked && f != e
        ensures f.Valid() && f.Repr() !! e.Repr()
      {
        assert f in old(f.Repr()) && forall t | t in f.translations :: t in old(f.Repr());
        assert forall i | 0 <= i < |f.translations| :: f.translations[i].Value() == old(f.translations[i].Value());
        assert f.View() == old(f.View());
      }
    }

    /** `UpdateTranslationAsync`: applies the aggregate upsert to the aggregate for `sid`
        and is a no-op when no row has that Sid; only that aggregate changes. */
    method UpdateTranslationAsync(sid: string, langId: Option<string>, text: Option<string>)
      returns (outcome: Outcome<DomainError>)
      requires Valid()
      modifies this, TrackedRepr(sid)
      ensures Valid() && rows == old(rows) && saves == old(saves)
      ensures FindBySid(rows, sid).None? ==>
        outcome == Pass && tracked == old(tracked) && states == old(states)
      ensures FindBySid(rows, sid).Some? ==> TrackedFor(sid).Some?
      ensures FindBySid(rows, sid).Some? ==>
        var before := match old(TrackedFor(sid))
          case Some(i) => old(tracked[i].View())
          case None => rows[FindBySid(rows, sid).value];
        var e := tracked[TrackedFor(sid).value];
        && (Upsert(before, langId, text).Success? ==> outcome == Pass && e.View() == Upsert(before, langId, text).value)
        && (Upsert(before, langId, text).Failure? ==> outcome == Fail(Upsert(before, langId, text).error) && e.View() == before)
    {
      if FindBySid(rows, sid).None? {
        var resource := GetBySid(sid);
        return Pass;
      } else if TrackedFor(sid).Some? {
        outcome := UpdateTracked(sid, langId, text);
      } else {
        outcome := UpdateLoaded(sid, langId, text);
      }
    }

    /** `UpdateTranslationAsync` when the row's aggregate is already tracked. */
    method UpdateTracked(sid: string, langId: Option<string>, text: Option<string>)
      returns (outcome: Outcome<DomainError>)
      requires Valid() && TrackedFor(sid).Some?
      modifies TrackedRepr(sid)
      ensures Valid() && TrackedFor(sid) == old(TrackedFor(sid))
      ensures var e := tracked[TrackedFor(sid).value];
        var before := old(e.View());
        && (Upsert(before, langId, text).Success? ==> outcome == Pass && e.View() == Upsert(before, langId, text).value)
        && (Upsert(before, langId, text).Failure? ==> outcome == Fail(Upsert(before, langId, text).error) && e.View() == before)
    {
      var resource := tracked[TrackedFor(sid).value];
      outcome := UpsertTracked(resource, langId, text);
    }

    /** `UpdateTranslationAsync` when the row's aggregate is not tracked yet: it is loaded and
        tracked first. */
    method UpdateLoaded(sid: string, langId: Option<string>, text: Option<string>)
      returns (outcome: Outcome<DomainError>)
      requires Valid() && FindBySid(rows, sid).Some? && TrackedFor(sid).None?
      modifies this
      ensures Valid() && rows == old(rows) && saves == old(saves) && TrackedFor(sid).Some?
      ensures var before := rows[FindBySid(rows, sid).value];
        var e := tracked[TrackedFor(sid).value];
        && (Upsert(before, langId, text).Success? ==> outcome == Pass && e.View() == Upsert(before, langId, text).value)
        && (Upsert(before, langId, text).Failure? ==> outcome == Fail(Upsert(before, langId, text).error) && e.View() == before)
    {
      var resource := GetBySid(sid);
      outcome := UpsertTracked(resource, langId, text);
    }

    /** `DbSet.Remove`: an aggregate staged for insertion stops being tracked; any other is
        staged for deletion. */
    method Remove(e: TextResourceEntity)
      requires Valid() && e in tracked
      modifies this
      ensures Valid() && rows == old(rows) && saves == old(saves)
      ensures var i := EntryOf(old(tracked), e);
        if old(states[i]) == Added
        then tracked == old(tracked[..i] + tracked[i+1..]) && states == old(states[..i] + states[i+1..])
        else tracked == old(tracked) && states == old(states[i := Deleted])
    {
      var i := EntryOf(tracked, e);
      if states[i] == Added {
        assert forall f | f in tracked[..i] + tracked[i+1..] :: f in tracked;
        tracked, states := tracked[..i] + tracked[i+1..], states[..i] + states[i+1..];
      } else {
        states := states[i := Deleted];
      }
    }

    /** `DeleteBySidAsync`: removes the aggregate for `sid` from the context (see `Remove`);
        a no-op when no row has that Sid. Nothing is stored until the commit. */
    method DeleteBySid(sid: string)
      requires Valid()
      modifies this
      ensures Valid() && rows == old(rows) && saves == old(saves)
      ensures FindBySid(rows, sid).None? ==> tracked == old(tracked) && states == old(states)
      ensures FindBySid(rows, sid).Some? && old(TrackedFor(sid)).None? ==>
        && |tracked| == |old(tracked)| + 1 && tracked[..|old(tracked)|] == old(tracked)
        && fresh(tracked[|old(tracked)|]) && tracked[|old(tracked)|].View() == rows[FindBySid(rows, sid).value]
        && states == old(states) + [Deleted]
      ensures old(TrackedFor(sid)).Some? ==>
        var i := old(TrackedFor(sid).value);
        if old(states[i]) == Added
        then tracked == old(tracked[..i] + tracked[i+1..]) && states == old(states[..i] + states[i+1..])
        else tracked == old(tracked) && states == old(states[i := Deleted])
    {
      if FindBySid(rows, sid).None? {
        var resource := GetBySid(sid);
      } else if TrackedFor(sid).Some? {
        DeleteTracked(sid);
      } else {
        DeleteLoaded(sid);
      }
    }

    /** `DeleteBySidAsync` when the row's aggregate is already tracked: that entry is removed. */
    method DeleteTracked(sid: string)
      requires Valid() && TrackedFor(sid).Some?
      modifies this
      ensures Valid() && rows == old(rows) && saves == old(saves)
      ensures var i := old(TrackedFor(sid).value);
        if old(states[i]) == Added
        then tracked == old(tracked[..i] + tracked[i+1..]) && states == old(states[..i] + states[i+1..])
        else tracked == old(tracked) && states == old(states[i := Deleted])
    {
      ghost var i := TrackedFor(sid).value;
      var resource := GetBySid(sid);
      assert resource == tracked[i];
      assert forall j | 0 <= j < i :: TrackedIds(tracked)[j] != resource.Id;
      assert EntryOf(tracked, resource) == i;
      Remove(resource);
    }

    /** `DeleteBySidAsync` when the row's aggregate is not tracked yet: it is loaded, tracked as
        persisted, and that new entry is staged for deletion. */
    method DeleteLoaded(sid: string)
      requires Valid() && FindBySid(rows, sid).Some? && TrackedFor(sid).None?
      modifies this
      ensures Valid() && rows == old(rows) && saves == old(saves)
      ensures |tracked| == |old(tracked)| + 1 && tracked[..|old(tracked)|] == old(tracked)
      ensures fresh(tracked[|old(tracked)|]) && tracked[|old(tracked)|].View() == rows[FindBySid(rows, sid).value]
      ensures states == old(states) + [Deleted]
    {
      var resource := GetBySid(sid);
      ghost var n := |old(tracked)|;
      assert tracked[n] == resource && states[n] == Persisted;
      assert forall j | 0 <= j < n :: tracked[j] != resource;
      assert EntryOf(tracked, resource) == n;
      Remove(resource);
    }

    /** `SaveChangesAsync`: writes every tracked change in one transaction. When the result
        keeps the database constraints it becomes the stored state, deleted entries stop being
        tracked and the rest count as persisted; otherwise the database rejects it and nothing
        changes. Either way one more commit was attempted. */
    method SaveChanges() returns (outcome: Outcome<StoreError>)
      requires Valid()
      modifies this
      ensures Valid() && saves == old(saves) + 1
      ensures SatisfiesSchema(old(Pending())) ==>
        && outcome == Pass && rows == old(Pending())
        && tracked == Survivors(old(tracked), old(states)) && states == AllPersisted(|tracked|)
      ensures !SatisfiesSchema(old(Pending())) ==>
        && outcome == Fail(ConstraintViolation)
        && rows == old(rows) && tracked == old(tracked) && states == old(states)
    {
      var staged := Pending();
      assert forall i | 0 <= i < |tracked| :: tracked[i].Valid();
      assert AllValid(EntityValues(tracked));
      StagedRowsAreValid(rows, EntityValues(tracked), states);
      saves := saves + 1;
      if !SatisfiesSchema(staged) {
        return Fail(ConstraintViolation);
      }
      rows := staged;
      tracked := Survivors(tracked, states);
      states := AllPersisted(|tracked|);
      outcome := Pass;
    }
  }
}
