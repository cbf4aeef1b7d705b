/** A translation: the localized text of one resource in one language. */
module TranslationEntities {
  import opened Wrappers
  import opened OrdinalText

  /** The fields of a translation. A `text` of None is a null reference: the constructor
      refuses one, `UpdateText` does not. */
  datatype Translation = Translation(id: int, sid: string, langId: string, text: Option<string>)

  /** The exceptions the domain constructors throw, one per message. */
  datatype DomainError =
    | SidRequired              // "SID is required."
    | TranslationSidMandatory  // "SID for translation is mandatory."
    | LanguageIdMandatory      // "Language ID is mandatory."
    | TextMandatory            // "Translation text cannot be null."

  /** The `Id` of a translation the database has not stored yet (the default of `int`). */
  const UnsavedId: int := 0

  /** What the internal constructor builds from its arguments, or the exception it throws;
      the sid is checked first, then the language, then the text. */
  function NewTranslation(sid: Option<string>, langId: Option<string>, text: Option<string>)
    : (r: Result<Translation, DomainError>)
    ensures r.Success? <==> !IsNullOrWhiteSpace(sid) && !IsNullOrWhiteSpace(langId) && text.Some?
    ensures r.Success? ==> r.value == Translation(UnsavedId, sid.value, langId.value, text)
    ensures IsNullOrWhiteSpace(sid) ==> r == Failure(TranslationSidMandatory)
    ensures !IsNullOrWhiteSpace(sid) && IsNullOrWhiteSpace(langId) ==> r == Failure(LanguageIdMandatory)
    ensures !IsNullOrWhiteSpace(sid) && !IsNullOrWhiteSpace(langId) && text.None? ==> r == Failure(TextMandatory)
  {
    if IsNullOrWhiteSpace(sid) then Failure(TranslationSidMandatory)
    else if IsNullOrWhiteSpace(langId) then Failure(LanguageIdMandatory)
    else if text.None? then Failure(TextMandatory)
    else Success(Translation(UnsavedId, sid.value, langId.value, text))
  }

  class TranslationEntity {
    const Id: int
    const Sid: string
    const LangId: string
    var Text: Option<string>

    /** The current field values. */
    function Value(): Translation
      reads this
    {
      Translation(Id, Sid, LangId, Text)
    }

    /** Sets every field from `row`; the internal constructor after its checks, and the
        object-relational mapper when it loads a row. */
    constructor FromRow(row: Translation)
      ensures Value() == row
    {
      Id, Sid, LangId, Text := row.id, row.sid, row.langId, row.text;
    }

    /** The internal constructor `TranslationEntity(sid, langId, text)`. */
    static method New(sid: Option<string>, langId: Option<string>, text: Option<string>)
      returns (r: Result<TranslationEntity, DomainError>)
      ensures NewTranslation(sid, langId, text).Failure? ==>
        r == Failure(NewTranslation(sid, langId, text).error)
      ensures NewTranslation(sid, langId, text).Success? ==>
        r.Success? && fresh(r.value) && r.value.Value() == NewTranslation(sid, langId, text).value
    {
      var checked := NewTranslation(sid, langId, text);
      if checked.Failure? {
        return Failure(checked.error);
      }
      var t := new TranslationEntity.FromRow(checked.value);
      return Success(t);
    }

    /** Overwrites the text, with no null check; nothing else changes. */
    method UpdateText(newText: Option<string>)
      modifies this
      ensures Value() == old(Value()).(text := newText)
    {
      Text := newText;
    }
  }
}
