# TranslationTool in Dafny

TranslationTool stores localized texts. A *text resource* has a business key, the Sid, and holds at most one translation per language. Languages are compared ignoring case.

This project models five parts of the tool and proves what each promises:

- **The domain aggregate.** `TextResourceEntity` and `TranslationEntity` are classes. They have constructor checks and an in-place upsert `AddOrUpdateTranslation`. The upsert searches with a loop, then either overwrites one entry's text or appends a new entry. Every successful upsert keeps the invariant that no two languages are equal ignoring case.
- **The stores.**
  - `DbTranslationRepository` is modelled as an Entity Framework unit of work. Committed rows sit beside a change tracker that resolves identities and holds entries that are persisted, added or deleted. `SaveChangesAsync` writes them in one commit, and the commit fails unless the mapping's constraints hold: unique Guid key, unique Sid, column widths, required columns, and the unique (Sid, LangId) index with delete cascade.
  - The legacy `DbTranslationProvider` works over flat rows keyed by Sid. It matches languages exactly.
- **The REST controllers.** There are two `TranslationController` variants. Each handler decides between NotFound, Conflict, Created and NoContent. A mutating path commits exactly once, and a failing path leaves the store as it was.
- **The OAuth 2.0 Authorization Code grant** (section 4.1 of RFC 6749). Both `AuthorizationController` variants are modelled:
  - `Authorize` challenges when the Identity cookie does not authenticate. When it does, it signs in a principal with the claims `sub`, `email` and `name`. Each claim is routed to the access token and, for `email` and `name`, also to the identity token. The request's scopes are copied.
  - `Exchange` signs in again for the `authorization_code` grant, with the principal the server authentication recovers; a null principal makes the sign-in result's constructor throw. Any other grant gets the `unsupported_grant_type` error of section 5.2 of RFC 6749.
- **The PHP front end.**
  - The `index` and `edit` pages build a language filter: the distinct languages, in order of first appearance.
  - Row text falls back from the selected language to `en-US`, then to `---`. On the edit page the fallbacks are `N/A` and `''`.
  - The `CheckOidcAuth` route guard lets public routes and requests holding a token through, and redirects the rest to login.

Some conventions run through the whole model:

- Null references are `Option` values.
- Exceptions are `Result`, `Outcome` or outcome datatypes.
- Everything outside the code is an input. This covers `Guid.NewGuid()`, the OpenID Connect request, authentication results, the user lookup and backend HTTP responses.

The legacy controller's `Get`, `Create`, `Update` and `Delete` (backend/Controllers/TranslationController.cs lines 36-45, 49-62, 66-76 and 80-89) are the same decisions as the API controller's, over the same repository, so `TranslationApi` models both. The legacy `GetDestinations` is identical to the API one and is modelled once, as `Oidc.GetDestinations`.

Files and modules:

| file | module |
|---|---|
| `wrappers.dfy` | `Wrappers` |
| `ordinal_text.dfy` | `OrdinalText` (.NET white space, ordinal ignore-case) |
| `translation_entity.dfy` | `TranslationEntities` |
| `text_resource_entity.dfy` | `TextResources` |
| `repository.dfy` | `Repository` |
| `translation_api.dfy` | `TranslationApi` |
| `legacy_translation_api.dfy` | `LegacyTranslationApi` |
| `provider.dfy` | `LegacyProvider` |
| `oidc.dfy` | `Oidc` |
| `authorization_api.dfy` | `AuthorizationApi` |
| `legacy_authorization.dfy` | `LegacyAuthorization` |
| `translation_ui.dfy` | `TranslationUi` |
| `check_oidc_auth.dfy` | `CheckOidcAuth` |

## Model

| member | source | states |
|---|---|---|
| OrdinalText.SameAsBlankIsBlank | backend/Translation.Domain/Entities/TextResourceEntity.cs:25-26 | a string equal ignoring case to a blank one is blank itself, so a blank language never matches a stored one |
| TranslationEntities.NewTranslation | Translation.Domain/Entities/TranslationEntity.cs:18-31 | construction succeeds exactly when the Sid and the language are neither null nor blank and the text is not null; the checks run in order (Sid, language, text) with their own exceptions; on success the fields are the arguments and the id is unsaved |
| TranslationEntities.TranslationEntity.FromRow | Translation.Domain/Entities/TranslationEntity.cs:27-30 | the object's fields are exactly the given values |
| TranslationEntities.TranslationEntity.New | Translation.Domain/Entities/TranslationEntity.cs:18-31 | a fresh object with `NewTranslation`'s fields, or its exception |
| TranslationEntities.TranslationEntity.UpdateText | Translation.Domain/Entities/TranslationEntity.cs:33 | only the text changes, to the new value, and null is accepted |
| TextResources.FindLanguage | backend/Translation.Domain/Entities/TextResourceEntity.cs:25-26 | the first translation whose language equals the argument ignoring case; None exactly when no translation matches |
| TextResources.Upsert | backend/Translation.Domain/Entities/TextResourceEntity.cs:23-36 | a successful upsert keeps the id and the Sid; it either extends the translation list or keeps its length |
| TextResources.UpsertAbsentAppends | backend/Translation.Domain/Entities/TextResourceEntity.cs:32-35 | for a language absent ignoring case, exactly one translation is appended, with this Sid and the given language and text; the existing entries are unchanged |
| TextResources.UpsertPresentReplacesText | backend/Translation.Domain/Entities/TextResourceEntity.cs:25-31 | for a language present ignoring case, the count is kept and only that entry's text is replaced; its stored spelling of the language stays |
| TextResources.UpsertFails | backend/Translation.Domain/Entities/TextResourceEntity.cs:23-36 | the upsert throws exactly when no language matches and the new entry's constructor refuses the language or the text |
| TextResources.BlankLanguageIsRefused | backend/Translation.Domain/Entities/TextResourceEntity.cs:25-34 | on a valid aggregate, a null or blank language always throws "Language ID is mandatory." |
| TextResources.UpsertPreservesInvariant | backend/Translation.Domain/Entities/TextResourceEntity.cs:25-35 | every successful upsert keeps the aggregate invariant: non-empty id, non-blank Sid, each translation bound to the Sid with a non-blank language, and no two languages equal ignoring case |
| TextResources.UniqueLanguagesAreExactlyUnique | backend/Translation.Infrastructure/Data/ApplicationDbContext.cs:70-71 | the aggregate invariant implies the exact (Sid, LangId) uniqueness the database index demands |
| TextResources.TwoLanguagesKeptApart | backend/Translation.Domain.Tests/TextResourceTests.cs:93-107 | upserting two languages distinct ignoring case into a new resource gives two entries, each with its own text |
| TextResources.SecondSpellingOverwrites | backend/Translation.Domain.Tests/TextResourceTests.cs:75-91 | upserting one language twice under different casings gives one entry, with the first spelling and the second text |
| TextResources.UpsertAtFirstMatch | backend/Translation.Domain/Entities/TextResourceEntity.cs:25-30 | when the first match is at index k, the upsert replaces exactly that entry's text |
| TextResources.TextResourceEntity.Init | backend/Translation.Domain/Entities/TextResourceEntity.cs:16-21 | a fresh valid aggregate with the given id and Sid and no translations |
| TextResources.TextResourceEntity.FromRow | Translation.Infrastructure/Repositories/DbTranslationRepository.cs:20-23 | an aggregate loaded with its translations: fresh objects whose values are the stored row |
| TextResources.TextResourceEntity.New | backend/Translation.Domain/Entities/TextResourceEntity.cs:16-21 | throws "SID is required." exactly when the Sid is null, empty or white space; otherwise a fresh valid aggregate with that Sid, the new id and no translations |
| TextResources.TextResourceEntity.AddOrUpdateTranslation | backend/Translation.Domain/Entities/TextResourceEntity.cs:23-36 | the search loop and the in-place update or append give exactly the `Upsert` of the old value; the old entry objects stay in the list in order, a match keeps exactly the same objects, and at most one fresh entry is appended; a throwing constructor leaves the aggregate unchanged; the invariant is kept; the read-only `Translations` property is the values of the entries |
| TextResources.TextResourceEntity.ReplaceTextAt | backend/Translation.Domain/Entities/TextResourceEntity.cs:28-31 | `existing.UpdateText(text)`: the list keeps the same objects, and only the entry at the match takes the new text |
| TextResources.TextResourceEntity.Append | backend/Translation.Domain/Entities/TextResourceEntity.cs:32-35 | `_translations.Add`: the new object is appended after the old ones, and the entries stay distinct objects |
| TextResources.TextResourceEntity.FindExisting | backend/Translation.Domain/Entities/TextResourceEntity.cs:25-26 | the search loop stops at the first entry whose language equals the given one ignoring case, which is the index `FindLanguage` names, or runs off the end exactly when there is none |
| Repository.FindBySid | Translation.Infrastructure/Repositories/DbTranslationRepository.cs:20-23 | the first stored row with this Sid exactly; None exactly when no row has it |
| Repository.IndexOfId | Translation.Infrastructure/Repositories/DbTranslationRepository.cs:55-58 | the first tracked entry with this id; None exactly when the id is not tracked |
| Repository.Carry | Translation.Infrastructure/Repositories/DbTranslationRepository.cs:55-58 | passing the stored rows through the tracked entries never adds a row; what each entry does to them is stated by `CarryOne` and `CarryKeepsRowsFor` |
| Repository.Inserted | Translation.Infrastructure/Repositories/DbTranslationRepository.cs:26-29 | only tracked values are inserted |
| Repository.StagedRowsAreValid | Translation.Infrastructure/Repositories/DbTranslationRepository.cs:55-58 | when the stored rows and the tracked values are valid aggregates, so is every row a commit writes |
| Repository.CarriedRowsAreValid | Translation.Infrastructure/Repositories/DbTranslationRepository.cs:55-58 | every rewritten or kept row is a valid aggregate |
| Repository.InsertedRowsAreValid | Translation.Infrastructure/Repositories/DbTranslationRepository.cs:26-29 | every inserted row is a valid aggregate |
| Repository.StagedNothing | Translation.Infrastructure/Repositories/DbTranslationRepository.cs:55-58 | with nothing tracked, a commit writes the stored rows back unchanged |
| Repository.StagedInsert | Translation.Infrastructure/Repositories/DbTranslationRepository.cs:26-29 | one added aggregate is stored after the existing rows, and nothing else changes |
| Repository.CarryKeepsRowsFor | Translation.Infrastructure/Repositories/DbTranslationRepository.cs:55-58 | an added entry, or one whose id is not stored, leaves the stored rows alone |
| Repository.StagedUpdate | Translation.Infrastructure/Repositories/DbTranslationRepository.cs:32-42 | one persisted aggregate replaces exactly the stored row with its id |
| Repository.StagedDelete | Translation.Infrastructure/Repositories/DbTranslationRepository.cs:45-52 | one deleted aggregate removes exactly its stored row |
| Repository.CarryOne | Translation.Infrastructure/Repositories/DbTranslationRepository.cs:55-58 | one persisted or deleted entry rewrites or drops its row in place |
| Repository.AggregatesSatisfyPairIndex | backend/Translation.Infrastructure/Data/ApplicationDbContext.cs:70-71 | valid aggregates with unique Sids satisfy the unique (Sid, LangId) index over the whole translations table |
| Repository.RemovalKeepsSchema | backend/Translation.Infrastructure/Data/ApplicationDbContext.cs:43-49 | removing a row keeps every constraint |
| Repository.RemovalDropsTranslations | backend/Translation.Infrastructure/Data/ApplicationDbContext.cs:45-49 | after a row is removed, no stored translation references its Sid (the cascade) |
| Repository.UpsertKeepsSchema | backend/Translation.Infrastructure/Data/ApplicationDbContext.cs:63-71 | replacing a row by a valid aggregate with the same id and Sid keeps every constraint exactly when the new row fits the columns |
| Repository.InsertKeepsSchema | backend/Translation.Infrastructure/Data/ApplicationDbContext.cs:33-41 | appending a valid aggregate keeps every constraint exactly when its id and Sid are new and it fits the columns |
| Repository.DbTranslationRepository.constructor | Translation.Infrastructure/Repositories/DbTranslationRepository.cs:11 | a context over the stored rows with nothing tracked and no commit yet |
| Repository.DbTranslationRepository.GetAllSids | Translation.Infrastructure/Repositories/DbTranslationRepository.cs:14-17 | the Sid of every stored row, in store order |
| Repository.DbTranslationRepository.GetBySid | Translation.Infrastructure/Repositories/DbTranslationRepository.cs:20-23 | null exactly when no row has the Sid; the already tracked instance when its id is tracked (identity resolution); otherwise a fresh aggregate equal to the row, tracked as persisted; nothing is stored |
| Repository.DbTranslationRepository.AddAsync | Translation.Infrastructure/Repositories/DbTranslationRepository.cs:26-29 | the aggregate is tracked as added; nothing is stored |
| Repository.DbTranslationRepository.UpdateTranslationAsync | Translation.Infrastructure/Repositories/DbTranslationRepository.cs:32-42 | a no-op for an unknown Sid; otherwise the tracked aggregate for the Sid takes the `Upsert` of its value, or keeps its value and reports the exception; nothing is stored |
| Repository.DbTranslationRepository.UpdateTracked | Translation.Infrastructure/Repositories/DbTranslationRepository.cs:35-40 | when the Sid's aggregate is already tracked, that instance takes the `Upsert` of its value, or keeps it and reports the exception; the Sid stays resolved to the same entry |
| Repository.DbTranslationRepository.UpdateLoaded | Translation.Infrastructure/Repositories/DbTranslationRepository.cs:35-40 | when it is not tracked yet, the aggregate loaded from the stored row takes the `Upsert` of that row, or keeps it and reports the exception; the stored rows do not change |
| Repository.DbTranslationRepository.Remove | Translation.Infrastructure/Repositories/DbTranslationRepository.cs:50 | an aggregate tracked as added stops being tracked; any other is marked for deletion |
| Repository.DbTranslationRepository.DeleteBySid | Translation.Infrastructure/Repositories/DbTranslationRepository.cs:45-52 | a no-op for an unknown Sid; otherwise the aggregate is fetched (or the tracked one is taken) and removed from the context; nothing is stored |
| Repository.DbTranslationRepository.DeleteTracked | Translation.Infrastructure/Repositories/DbTranslationRepository.cs:47-50 | when the Sid's aggregate is already tracked, that entry is detached if it was staged for insertion and is otherwise marked deleted |
| Repository.DbTranslationRepository.DeleteLoaded | Translation.Infrastructure/Repositories/DbTranslationRepository.cs:47-50 | when it is not tracked yet, one fresh entry holding the stored row is appended and marked deleted; the earlier entries are untouched |
| Repository.DbTranslationRepository.SaveChanges | Translation.Infrastructure/Repositories/DbTranslationRepository.cs:55-58 | one commit attempt: if the staged rows satisfy every constraint they become the stored rows and the deleted entries stop being tracked; otherwise it fails with a constraint violation and nothing changes |
| TranslationApi.MapToDto | backend/Translation.API/Controllers/TranslationController.cs:92-98 | the response has the Sid and the (LangId, Text) of every translation, in order |
| TranslationApi.UpsertShowsInResponse | backend/Translation.API/Controllers/TranslationController.cs:69-77 | after an upsert, the response lists exactly one translation in that language ignoring case, and it holds the new text |
| TranslationApi.CreatedResourceFits | backend/Translation.API/Controllers/TranslationController.cs:56-60 | a newly created resource can be stored exactly when its id is new and its Sid fits the 255-character column |
| TranslationApi.UpsertedRowFits | backend/Translation.API/Controllers/TranslationController.cs:73-75 | an upserted row can be stored exactly when the language already existed or fits the 10-character column |
| TranslationApi.List | backend/Translation.API/Controllers/TranslationController.cs:26-34 | Ok with one response per stored resource, in order, each its `MapToDto`; nothing changes; the rows are read through `GetAllTextResource`, which answers the committed rows |
| TranslationApi.Get | backend/Translation.API/Controllers/TranslationController.cs:38-47 | NotFound for an unknown Sid, else Ok with the stored resource's response; nothing is stored or committed |
| TranslationApi.Create | backend/Translation.API/Controllers/TranslationController.cs:51-63 | Conflict "SID already exists" for a stored Sid, and the constructor's exception for a blank one, both without a commit; otherwise one commit that stores the resource with its `default` translation and answers CreatedAt `Get`, or a constraint failure that stores nothing |
| TranslationApi.Update | backend/Translation.API/Controllers/TranslationController.cs:67-77 | NotFound for an unknown Sid; the upsert's exception without a commit; otherwise one commit that stores the row replaced by its upsert and answers NoContent, or a constraint failure that stores nothing |
| TranslationApi.SaveUpdated | backend/Translation.API/Controllers/TranslationController.cs:75-76 | the commit of the single loaded and changed aggregate stores row `k` replaced by its value and answers NoContent, or fails with the constraint violation and stores nothing |
| TranslationApi.Delete | backend/Translation.API/Controllers/TranslationController.cs:81-90 | NotFound for an unknown Sid; otherwise one commit that removes exactly that resource with its translations, and NoContent |
| LegacyTranslationApi.List | backend/Controllers/TranslationController.cs:28-32 | Ok with the Sid of every stored resource, in order; nothing changes |
| LegacyTranslationApi.ListedSidsResolve | backend/Controllers/TranslationController.cs:28-45 | with unique Sids, every listed Sid leads `Get` back to exactly its own row, and a Sid is found exactly when it is listed |
| LegacyProvider.FindResource | backend/Provider/DbTranslationProvider.cs:41-44 | the resource with this key; None exactly when there is none |
| LegacyProvider.FindExact | backend/Provider/DbTranslationProvider.cs:31-32 | the first translation whose language equals the argument exactly; None exactly when there is none |
| LegacyProvider.Details | backend/Provider/DbTranslationProvider.cs:16-19 | the stored resource with this Sid and its translations, present exactly when the Sid is stored; `DbTranslationProvider.GetDetails` answers it over the context's rows |
| LegacyProvider.CreatedStoreIsValid | backend/Provider/DbTranslationProvider.cs:21-27 | for the store `Created` computes, creation fails exactly when the Sid is taken; otherwise the store keeps its constraints and the new Sid has exactly the `default` translation with the given text |
| LegacyProvider.UpdatedStoreChangesOnlyText | backend/Provider/DbTranslationProvider.cs:29-39 | for the store `Updated` computes, nothing is written exactly when no translation matches the Sid and the language exactly; otherwise the matching translation holds the new text, every other translation is unchanged, no translation is added or removed, and the constraints hold |
| LegacyProvider.ExactMatchIgnoresOtherCasing | backend/Provider/DbTranslationProvider.cs:31-32 | a language stored only under another casing ("en-US" against "EN-us") is not updated |
| LegacyProvider.DeletedStoreDropsTranslations | backend/Provider/DbTranslationProvider.cs:41-49 | for the store `Deleted` computes, deletion is a no-op exactly for an unknown key; otherwise the key and every translation referencing it go, and every other resource stays |
| LegacyProvider.DbTranslationProvider.constructor | backend/Provider/DbTranslationProvider.cs:11 | a context over the stored rows with no commit yet |
| LegacyProvider.DbTranslationProvider.GetAllSids | backend/Provider/DbTranslationProvider.cs:13-14 | every key, in store order |
| LegacyProvider.DbTranslationProvider.CreateSid | backend/Provider/DbTranslationProvider.cs:21-27 | always commits once; stores `Created`, or reports the taken key and stores nothing |
| LegacyProvider.DbTranslationProvider.UpdateTranslation | backend/Provider/DbTranslationProvider.cs:29-39 | with an exact match, stores `Updated` and commits once; without one, neither writes nor commits |
| LegacyProvider.DbTranslationProvider.DeleteSid | backend/Provider/DbTranslationProvider.cs:41-49 | for a stored key, stores `Deleted` and commits once; otherwise neither writes nor commits |
| Oidc.PrincipalOf | backend/Translation.API/Controllers/AuthorizationController.cs:78-79 | the principal is present exactly when authentication succeeded, and is then the authenticated one |
| Oidc.GetDestinations | backend/Translation.API/Controllers/AuthorizationController.cs:85-101 | the access token always comes first; the identity token comes second exactly for `name` and `email` claims; no other destination |
| Oidc.TagDestinations | backend/Translation.API/Controllers/AuthorizationController.cs:59-60 | the loop keeps every claim's type, value and position, and tags each with `GetDestinations` of its type |
| Oidc.IssuedPrincipal | backend/Translation.API/Controllers/AuthorizationController.cs:50-63 | exactly the claims `sub`, `email` and `name` with the given values, each routed by `GetDestinations`, on the server scheme, with the request's scopes |
| Oidc.IdentityTokenCarriesProfileOnly | backend/Translation.API/Controllers/AuthorizationController.cs:85-101 | every issued claim reaches the access token; only `email` and `name` reach the identity token |
| AuthorizationApi.Authorize | backend/Translation.API/Controllers/AuthorizationController.cs:36-66 | throws when the provider has no request; Challenge on the application scheme when the cookie fails, whatever the user lookup would give; throws "User not found." when no user is found; throws on a null email or user name; otherwise SignIn on the server scheme with `IssuedPrincipal` of the user's Id, Email and UserName |
| AuthorizationApi.Exchange | backend/Translation.API/Controllers/AuthorizationController.cs:72-83 | SignIn exactly for the `authorization_code` grant (`IsAuthorizationCodeGrantType`) when the server authentication recovers a principal, on the server scheme with that principal; for that grant with no principal, the `SignInResult` constructor throws `ArgumentNullException` for `principal`; any other grant is BadRequest `unsupported_grant_type`, whatever the authentication would give |
| LegacyAuthorization.Authorize | backend/Controllers/AuthorizationController.cs:30-79 | throws when there is no request; Challenge when the cookie fails; throws when no user is found; otherwise SignIn with `IssuedPrincipal` where a null email or user name is "" |
| LegacyAuthorization.Exchange | backend/Controllers/AuthorizationController.cs:84-107 | throws when there is no request; SignIn exactly for `authorization_code` when a principal is recovered, with that principal, and the `ArgumentNullException` for `principal` when none is; otherwise BadRequest `unsupported_grant_type` with "The specified grant type is not supported." |
| TranslationUi.Unique | presentation/app/Http/Controllers/TranslationController.php:77-78 | the same values, each once, ordered by first occurrence |
| TranslationUi.LanguagesOf | presentation/app/Http/Controllers/TranslationController.php:73-76 | a language is listed exactly when some translation of some resource has it |
| TranslationUi.AvailableLanguages | presentation/app/Http/Controllers/TranslationController.php:73-78 | every language of any fetched translation, each exactly once |
| TranslationUi.FirstOf | presentation/app/Http/Controllers/TranslationController.php:85 | the first translation in the language; None exactly when there is none |
| TranslationUi.FirstText | presentation/app/Http/Controllers/TranslationController.php:85-87 | the text of the first translation in the language, and null when there is none or its text is null |
| TranslationUi.RowText | presentation/app/Http/Controllers/TranslationController.php:85-87 | the selected language's text, else the `en-US` text, else `---`; the result is always `---` or the text of a translation in one of those two languages |
| TranslationUi.TableData | presentation/app/Http/Controllers/TranslationController.php:81-93 | one row per resource, in order, with its Sid and its row text |
| TranslationUi.Index | presentation/app/Http/Controllers/TranslationController.php:64-99 | a failed fetch goes back with its message; otherwise the table, the language filter, and the selected language (`en-US` when none is given) |
| TranslationUi.Edit | presentation/app/Http/Controllers/TranslationController.php:101-131 | a failed fetch of the resource, then of the list, redirects to the index with its message; otherwise the default text is the `en-US` text or `N/A`, and the current text is the edited language's text or `''`; the edited language is `en-US` when none is given |
| TranslationUi.IndexShowsStoredText | presentation/app/Http/Controllers/TranslationController.php:81-93 | over a store that satisfies its schema and the backend's listing, a resource with a text stored in the selected language, spelled exactly, shows that text |
| CheckOidcAuth.Handle | presentation/app/Http/Middleware/CheckOidcAuth.php:9-29 | passes exactly when the path is one of the excluded routes (`IsExcluded`, the `$request->is` check) or the session holds `api_token`; redirects to login exactly otherwise |
| CheckOidcAuth.PublicRoutesAlwaysPass | presentation/app/Http/Middleware/CheckOidcAuth.php:12-21 | each of the four excluded routes passes, with or without a token |
| CheckOidcAuth.OutcomeDependsOnlyOnMatchAndToken | presentation/app/Http/Middleware/CheckOidcAuth.php:9-29 | two requests that agree on whether the path is excluded and whether a token is present get the same outcome |

## Left out

- Asynchrony is left out: every `await` is sequential. So is the un-awaited `DeleteBySidAsync` at backend/Controllers/TranslationController.cs:85, a race with the following commit that is taken here as delete, then commit.
- Ordinal ignore-case comparison is modelled with ASCII upper-casing. .NET folds all of Unicode.
- `Guid.NewGuid()` (backend/Translation.Domain/Entities/TextResourceEntity.cs:19) is a non-empty `newId` argument.
- Database-generated translation ids are not assigned. A translation keeps the unsaved id 0 after a commit, and the legacy rows carry no id at all.
- The database is modelled through the mapping's constraints and one assumption about the rows already stored. Connection failures, transactions against other writers, and exception types other than a constraint violation are left out. After a failed commit the change tracker keeps its entries.
- Repository.DbTranslationRepository.constructor: requires every stored row to be a valid aggregate (non-empty id, non-blank Sid and languages, each translation bound to its Sid, languages unique ignoring case). The mapping at backend/Translation.Infrastructure/Data/ApplicationDbContext.cs:63-71 enforces none of this, and its (Sid, LangId) index is exact. It is assumed because rows are written only through the aggregate, and `Repository.StagedRowsAreValid` proves that every commit keeps it.
- Repository.DbTranslationRepository.AddAsync: does not model the identity conflict Entity Framework raises when an aggregate with an already tracked id is added. The controllers add only to a context that tracks nothing, so they cannot reach it.
- The request DTOs `CreateTranslationRequest` and `UpdateTranslationRequest` are not part of this model. Their fields are taken as non-null strings, as model binding delivers them.
- The implementation of `ITextResourceRepository` is not part of this model. The API controller is modelled over `DbTranslationRepository`, with `GetAllTextResource` returning the committed rows.
- The OIDC seam `IOidcProvider` is modelled as inputs to the endpoints: the request, the authentication results and the user lookup. All of the following are left out:
  - issuing, signing and validating codes and tokens, which OpenIddict does;
  - the "HttpContext is not available." failure of backend/Translation.Infrastructure/Identity/OidcProvider.cs:22-23;
  - the parsing of the `scope` parameter (scopes arrive already split);
  - what OpenIddict does with the signed-in principal after the action returns.
- Oidc.TagDestinations: `SetDestinations` updates claim objects in place. Here claims are values, and the loop rebuilds the sequence, so aliasing of claim objects is not modelled.
- Password checking in backend/Translation.API/Controllers/AccountController.cs is not part of this model.
- Front-end plumbing is left out:
  - the HTTP client and its error handling (presentation/app/Http/Controllers/TranslationController.php:14-61), whose results are `Fetch` inputs;
  - the Blade views, LoginController.php and the routes;
  - the other page actions of the PHP controller (`update`, `create`, `store` and `destroy`).
- TranslationUi.FirstOf: Laravel's `where` and `unique` compare loosely, so two numeric strings may count as equal. The model compares strings exactly.
- TranslationUi.Edit: the fallback `$details['translations'] ?? []` is not modelled, because the backend's response always holds a translation list. The `$sid` argument only builds the fetched URL.
- TranslationUi.Index: a `lang` parameter that is present but empty is not distinguished from a given language.
- CheckOidcAuth.Handle:
  - the path is the one the framework reports, and matching is exact, since no excluded route contains `*`;
  - Laravel reports the site root as `/`, never as the empty path, so the excluded route `''` matches no request: the root redirects without a token, as the model does for `/`. `CheckOidcAuth.PublicRoutesAlwaysPass` still covers `''`, which no request supplies;
  - the token's value is ignored, and only its presence counts.
- Repository.DbTranslationRepository.UpdateTranslationAsync: does not state that the other tracked aggregates keep their values. Its callers never need it: the controllers start from a context that tracks nothing, and `TranslationApi.Update` reaches the commit only through `TranslationApi.SaveUpdated`, which requires the one loaded aggregate to be the only tracked entry.
- TranslationApi.Create: does not state what the change tracker holds after a failed commit.
- The first-match searches `Repository.FindBySid`, `Repository.IndexOfId`, `LegacyProvider.FindResource`, `LegacyProvider.FindExact`, `TranslationUi.FirstOf` and `TranslationUi.IndexOf` share one shape but are kept apart. Each models its own query in the source (a LINQ `FirstOrDefault` on the Sid, the change tracker's identity lookup, `FindAsync` on the key, the exact (Sid, LangId) query, Laravel's `where()->first()`, and the first-occurrence position that states `unique()`'s order) over its own element type, and each states its result in that query's terms.
- Repository.Inserted: states only that inserted values come from the tracked ones, not that every added entry is inserted. Repository.StagedInsert states the single-insert case exactly.
