# CZERTAINLY Core: authentication pipeline and collections

This project models two parts of the CZERTAINLY Core platform and proves properties of the model.

**Authentication.** This covers how a request to Core becomes an authenticated principal:
- the OAuth2 bearer-token decoder (`CzertainlyJwtDecoder`), which finds the provider for the token's issuer, runs discovery and signature verification, validates issuer, expiry, not-before and audience with clock skew, and writes an audit entry for each handled rejection;
- the JWT authentication converter, which presents the accepted token to the authentication service in the `Token-Authentication` header;
- `AuthHelper`, which authenticates as a system user or as a user uuid, classifies protocol users, loads object permissions from the policy engine and reads the client IP address from the proxy headers;
- the token-request headers converter, which form-encodes client credentials for HTTP Basic and sends the `X-Forwarded-Host`, `X-Forwarded-Port` and `X-Forwarded-Proto` headers for the internal provider;
- the login page and the per-provider redirect of `LoginController`.

**Collections.** Collections are named lists of attribute content items, either user-defined or backed by a source. The model covers:
- the collection service: get, create, edit and delete collections; add, import from CSV, edit and delete items; and the bulk variants;
- the source processor and the ENUM source loader;
- the start-up synchroniser that reconciles ENUM-sourced collections with the registered collection enums.

Modelling conventions:
- Java values are immutable datatypes. The repositories are a `Store` value holding a sequence of collections, and each collection owns its items and its source.
- Every call the code makes into code not modelled is a function-typed parameter, and every generated uuid is a parameter too. This covers token parsing, OIDC discovery, signature verification, the authentication service, the policy engine, content validation, Base64 decoding, URI parsing and the enum registry.
- A `@Transactional` service method that throws is modelled as an error result with the store unchanged, which is the rollback. The synchroniser is not transactional, so its partial progress is kept.

## Model

| member | source | states |
|---|---|---|
| JwtDecoder.Validate | src/main/java/com/czertainly/core/auth/oauth2/CzertainlyJwtDecoder.java:81-89 | Each failed check is reported exactly when it fails: issuer differs; expired beyond the skew; not yet valid (only when not expired); audience configured but missing or not overlapping. The token passes iff all four hold. The as-written rule throws a NullPointerException exactly when audiences are configured and the token has no `aud`. |
| JwtDecoder.Decode | src/main/java/com/czertainly/core/auth/oauth2/CzertainlyJwtDecoder.java:42-98 | An already authenticated context is left alone, with nothing parsed, called or audited. Otherwise each handled failure gives its error and message: unparsable issuer, missing issuer, no provider for the issuer. Discovery and verification happen only for the configured issuer. An accepted token satisfies issuer, signature, time window and audience. Each handled rejection writes exactly one failure audit, and success writes none. |
| JwtDecoder.DecodeVerdict | src/main/java/com/czertainly/core/auth/oauth2/CzertainlyJwtDecoder.java:42-98 | Conversely, a token is accepted exactly when authentication is needed, its issuer has a configured provider, and discovery, the signature and the combined validator all pass. Once the provider is found, a discovery failure, a signature failure, the validator's null dereference and failed checks each give their own rejection. |
| JwtDecoder.Verify | src/main/java/com/czertainly/core/auth/oauth2/CzertainlyJwtDecoder.java:70-97 | Discovery runs first, and verification only if discovery succeeds. A discovery or signature failure is rejected with the cause's message, prefixed, and audited once. A token is accepted iff discovery and the signature pass and Validate reports no failed check. Otherwise the validator's null dereference is an unaudited NullPointerException, and failed checks are rejected with the validation message. |
| JwtDecoder.NoAudiencesNoConstraint | src/main/java/com/czertainly/core/auth/oauth2/CzertainlyJwtDecoder.java:84-86 | With no configured audiences the token's `aud` claim cannot change the verdict. |
| JwtDecoder.SkewWindow | src/main/java/com/czertainly/core/auth/oauth2/CzertainlyJwtDecoder.java:70-81 | A token is inside its validity window iff `exp + skew` is not before now and `nbf - skew` is not after now (absent claims do not constrain). |
| JwtDecoder.LargerSkewAcceptsMore | src/main/java/com/czertainly/core/auth/oauth2/CzertainlyJwtDecoder.java:70-81 | Raising the clock skew never rejects a token that was accepted. |
| JwtDecoder.MissingAudienceEscapesAudit | src/main/java/com/czertainly/core/auth/oauth2/CzertainlyJwtDecoder.java:85 | As written: a valid signed token without `aud`, for a provider with audiences configured, ends in a NullPointerException and no audit entry is written. |
| JwtDecoder.MissingAudienceExample | src/main/java/com/czertainly/core/auth/oauth2/CzertainlyJwtDecoder.java:90-97 | A concrete provider, token and environment for which the as-written decoder rejects without any audit entry. |
| JwtDecoder.RejectionsAuditedOnce | src/main/java/com/czertainly/core/auth/oauth2/CzertainlyJwtDecoder.java:90-97 | With a missing `aud` counted as an audience failure, every rejection is audited exactly once and every other outcome not at all. |
| JwtDecoder.RulesAgreeWhenAudiencePresent | src/main/java/com/czertainly/core/auth/oauth2/CzertainlyJwtDecoder.java:84-86 | The corrected rule differs from the as-written one only on the input that threw. |
| JwtConverter.Convert | src/main/java/com/czertainly/core/auth/oauth2/CzertainlyJwtAuthenticationConverter.java:31-40 | A token is presented once, in the `Token-Authentication` header, and the principal is the service's answer or the service's error. Without a token: a Czertainly context keeps its own principal, an empty context gives null, and any other context is a ClassCastException. |
| JwtConverter.AuthenticateBearer | src/main/java/com/czertainly/core/auth/oauth2/CzertainlyJwtDecoder.java:42-45 | The bearer-token flow: the decoder runs first, a rejection stops it before `convert` (CzertainlyJwtAuthenticationConverter.java lines 31-40) with no service call, and the only audit entries are the decoder's. The context changes only when a Czertainly token is installed on success, and at most one service call is made. The framework's authentication provider, which joins decoder and converter, is modelled only as this composition. |
| JwtConverter.AuthenticatedRequestReusesPrincipal | src/main/java/com/czertainly/core/auth/oauth2/CzertainlyJwtDecoder.java:43-45 | A request that already carries a Czertainly principal is passed through with no decode, audit or service call. |
| JwtConverter.RejectedTokenNotPresented | src/main/java/com/czertainly/core/auth/oauth2/CzertainlyJwtAuthenticationConverter.java:31-40 | A token the decoder rejects never reaches the authentication service, and the context is unchanged. |
| JwtConverter.AcceptedTokenPresentedOnce | src/main/java/com/czertainly/core/auth/oauth2/CzertainlyJwtAuthenticationConverter.java:31-40 | An accepted token is sent to the service exactly once. The request succeeds iff the service answers, and the new principal is the answer. |
| JwtConverter.AtMostOneServiceCall | src/main/java/com/czertainly/core/auth/oauth2/CzertainlyJwtAuthenticationConverter.java:31-40 | The pipeline calls the authentication service at most once, and success always leaves a Czertainly principal. |
| JwtConverter.SecondRunIsFree | src/main/java/com/czertainly/core/auth/oauth2/CzertainlyJwtDecoder.java:100-103 | After a successful authentication, a later bearer token on the same context causes no work at all. |
| AuthHelper.AuthenticateAsSystemUser | src/main/java/com/czertainly/core/util/AuthHelper.java:64-76 | The actor info is recorded before the service is called with the `systemUsername` header. The actor is PROTOCOL iff the name is acme, scep or cmp, and CORE otherwise. On success the context holds the service's answer. On failure the context is unchanged. |
| AuthHelper.AuthenticateAsUser | src/main/java/com/czertainly/core/util/AuthHelper.java:78-88 | A USER actor with the uuid is recorded, then the service is called with the `userUuid` header. The context changes only on success. |
| AuthHelper.GetUserIdentification | src/main/java/com/czertainly/core/util/AuthHelper.java:101-109 | It answers exactly for contexts with principal details, with their user uuid and username. Any other context is the "user identification" error. |
| AuthHelper.GetUserProfile | src/main/java/com/czertainly/core/util/AuthHelper.java:111-123 | It answers iff there are principal details and their raw data can be read as a profile, with that profile. A missing principal and an unreadable profile both give the "profile information" error. |
| AuthHelper.AuthenticatedUserReadBack | src/main/java/com/czertainly/core/util/AuthHelper.java:78-123 | After a successful `authenticateAsUser` the identification, the protocol-user test and the profile all come from the service's answer. After a refused one each reads what it read before the call. |
| AuthHelper.IsLoggedProtocolUser | src/main/java/com/czertainly/core/util/AuthHelper.java:90-99 | It answers exactly for contexts with principal details, true iff the username is acme, scep or cmp. Any other context is the "unknown protocol user" error. |
| AuthHelper.SystemUserClassifiedConsistently | src/main/java/com/czertainly/core/util/AuthHelper.java:64-99 | After authenticating as a system user that the service echoes back, the protocol-user check agrees with the actor type recorded. |
| AuthHelper.LoadObjectPermissions | src/main/java/com/czertainly/core/util/AuthHelper.java:125-143 | A non-Czertainly context gets "nothing allowed" with no query. Otherwise there is one policy query with the resource and action codes and the raw principal. The filter copies the allowed and forbidden objects, and "only specific objects" is the negation of the group permission. |
| AuthHelper.PermittedIffPolicyAllows | src/main/java/com/czertainly/core/util/AuthHelper.java:125-143 | An object is permitted by the loaded filter iff the policy engine answered and either allows the group and does not forbid the object, or lists the object as allowed. |
| AuthHelper.GetClientIPAddress | src/main/java/com/czertainly/core/util/AuthHelper.java:146-166 | The first proxy header that is present, non-blank and not "unknown" supplies the address: its first comma-separated entry, or an error when the value is only commas. When no header is usable, the last header's value is kept if present, even blank or "unknown", and the remote address is used only when it is absent. |
| TokenHeaders.WithCharsetUtf8 | src/main/java/com/czertainly/core/auth/oauth2/CzertainlyOAuth2TokenRequestHeadersConverter.java:79-84 | Accept is JSON with UTF-8. Content type is form-urlencoded with UTF-8. Credential encoding is on. |
| TokenHeaders.SetEncodeClientCredentials | src/main/java/com/czertainly/core/auth/oauth2/CzertainlyOAuth2TokenRequestHeadersConverter.java:75-77 | Only the encoding flag changes. |
| TokenHeaders.EncodeCredential | src/main/java/com/czertainly/core/auth/oauth2/CzertainlyOAuth2TokenRequestHeadersConverter.java:68-73 | When encoding is on, the result is form-safe and decodes back to the credential, for any credential of Unicode scalar values. When it is off, the credential is unchanged. |
| TokenHeaders.BasicAuth | src/main/java/com/czertainly/core/auth/oauth2/CzertainlyOAuth2TokenRequestHeadersConverter.java:46-50 | Basic credentials are accepted iff the user has no ':' and both parts are ISO-8859-1, and the pair is `user:password`. |
| TokenHeaders.ForwardedFor | src/main/java/com/czertainly/core/auth/oauth2/CzertainlyOAuth2TokenRequestHeadersConverter.java:60-62 | `X-Forwarded-Host` and `X-Forwarded-Proto` carry the issuer's host and scheme. `X-Forwarded-Port` is sent iff the port is positive, written in decimal. |
| TokenHeaders.Convert | src/main/java/com/czertainly/core/auth/oauth2/CzertainlyOAuth2TokenRequestHeadersConverter.java:41-66 | Accept and content type come from the configuration. Authorization is sent iff the client uses client_secret_basic, built from the encoded id and secret. The `X-Forwarded-*` headers are sent iff the registration is the internal provider, and then describe the access token's issuer. A registration other than the internal provider never reads the token: it succeeds iff the Basic credentials pass, and otherwise fails only with IllegalArgument. The internal provider's request succeeds iff, in addition, the grant is a refresh grant whose access token parses and names an issuer that parses as a URI. The issuer-parse and null-issuer errors arise only for the internal provider. |
| TokenHeaders.EncodedCredentialsAccepted | src/main/java/com/czertainly/core/auth/oauth2/CzertainlyOAuth2TokenRequestHeadersConverter.java:46-50 | With encoding on, Basic credentials never fail on the encoded id and secret. |
| TokenHeaders.BasicCredentialsRecoverable | src/main/java/com/czertainly/core/auth/oauth2/CzertainlyOAuth2TokenRequestHeadersConverter.java:46-50 | With encoding on, the server recovers the exact client id and secret, for any id and secret of Unicode scalar values, by splitting at the first ':' and form-decoding both halves. |
| TokenHeaders.RefreshTokenIrrelevant | src/main/java/com/czertainly/core/auth/oauth2/CzertainlyOAuth2TokenRequestHeadersConverter.java:52-63 | Only the access token of a refresh grant affects the headers, never the refresh token. |
| FormEncoding.EncodeRoundTrip | src/main/java/com/czertainly/core/auth/oauth2/CzertainlyOAuth2TokenRequestHeadersConverter.java:68-73 | Form-decoding the URLEncoder output of any string of Unicode scalar values gives the string back. |
| FormEncoding.EncodeInjective | src/main/java/com/czertainly/core/auth/oauth2/CzertainlyOAuth2TokenRequestHeadersConverter.java:68-73 | Distinct strings of Unicode scalar values never encode to the same text. |
| JavaText.SplitEmptyIffOnlySeparators | src/main/java/com/czertainly/core/util/AuthHelper.java:162-164 | `split` returns no fields exactly for a non-empty string made only of the separator, the case where indexing field 0 throws. |
| JavaText.SplitHead | src/main/java/com/czertainly/core/util/AuthHelper.java:162-164 | The first field of a non-empty split is the text before the first separator. |
| JavaText.DecimalRoundTrip | src/main/java/com/czertainly/core/auth/oauth2/CzertainlyOAuth2TokenRequestHeadersConverter.java:61 | Reading back the decimal text of a port gives the port. |
| OAuth2Settings.FirstWithIssuer | src/main/java/com/czertainly/core/auth/oauth2/CzertainlyJwtDecoder.java:61-68 | It finds a provider iff one has the issuer URL, and it is the first such provider in settings order. |
| OAuth2Settings.ProviderByKey | src/main/java/com/czertainly/core/auth/oauth2/LoginController.java:70 | It finds a provider iff its key is configured, and returns that key's provider. |
| OAuth2Settings.WithClientId | src/main/java/com/czertainly/core/auth/oauth2/LoginController.java:53 | It keeps exactly the providers that have a client id, and is empty iff none has one. |
| Security.PrincipalDetails | src/main/java/com/czertainly/core/util/AuthHelper.java:92 | Principal details exist iff the context holds a Czertainly principal or another authentication with a principal. |
| Login.LoginPage | src/main/java/com/czertainly/core/auth/oauth2/LoginController.java:27-65 | The servlet context is always stored first. An error parameter gives the error view and invalidates the session. A missing or empty redirect gives "No redirect URL provided". Otherwise the redirect URL is stored, and with no providers the no-login-options view is returned. |
| Login.ProviderChoice | src/main/java/com/czertainly/core/auth/oauth2/LoginController.java:53-64 | The offered providers are those with a client id. A redirect to the authorization endpoint is sent iff exactly one is offered, after that provider's session timeout is set. The only error is that redirect failing. Every other view is login-options with the offered names. |
| Login.JwtOnlyProvidersNotOffered | src/main/java/com/czertainly/core/auth/oauth2/LoginController.java:53-64 | When no provider has a client id, the page lists no names and redirects nowhere. |
| OAuth2Settings.OfferedFoundByName | src/main/java/com/czertainly/core/auth/oauth2/LoginController.java:53-70 | With distinct keys equal to the provider names, looking up an offered provider by its name finds that same provider. |
| Login.OfferedProviderAccepted | src/main/java/com/czertainly/core/auth/oauth2/LoginController.java:53-78 | Every offered provider is accepted by the per-provider endpoint under its name. The session takes its timeout and the redirect goes to `<context>/` plus the path the login page uses. It fails iff that redirect fails. |
| Login.LoginWithProvider | src/main/java/com/czertainly/core/auth/oauth2/LoginController.java:68-78 | An unknown provider key is an error with no effect. A known one sets its session timeout and redirects to `<context>/oauth2/authorization/<key>`, failing iff the redirect fails. |
| CollectionModel.ParseUuid | src/main/java/com/czertainly/core/service/impl/CollectionServiceImpl.java:283 | The dashed 8-4-4-4-12 hex form parses, in either case, and nothing else does. The uuid prints as the input in lower case. |
| CollectionModel.ParsePrinted | src/main/java/com/czertainly/core/dao/entity/CollectionItem.java:86-87 | Parsing a uuid's printed form gives the uuid back. |
| CollectionModel.FindByUuid | src/main/java/com/czertainly/core/service/impl/CollectionServiceImpl.java:87-88 | Lookup by uuid finds a collection with that uuid iff one exists. |
| CollectionModel.FindByName | src/main/java/com/czertainly/core/service/impl/CollectionServiceImpl.java:100-101 | Lookup by name finds a collection with that name iff one exists. |
| CollectionModel.FindReplaced | src/main/java/com/czertainly/core/service/impl/CollectionServiceImpl.java:162 | After a collection is saved under its own uuid, looking the uuid up finds the saved value. |
| CollectionModel.RemoveByUuid | src/main/java/com/czertainly/core/dao/entity/Collection.java:33-37 | Deleting a collection removes exactly the collections with that uuid, and its items and source go with it. |
| CollectionModel.FindItem | src/main/java/com/czertainly/core/service/impl/CollectionServiceImpl.java:283-284 | The item lookup finds an item iff some collection holds an item with that uuid. |
| CollectionModel.SaveItem | src/main/java/com/czertainly/core/service/impl/CollectionServiceImpl.java:298-302 | Saving an item row replaces every row with its uuid and leaves all other rows and every collection field unchanged. |
| CollectionModel.FindSavedItem | src/main/java/com/czertainly/core/service/impl/CollectionServiceImpl.java:283-302 | A saved row that existed is found again by its uuid. |
| CollectionModel.WithoutItem | src/main/java/com/czertainly/core/service/impl/CollectionServiceImpl.java:313 | Deleting an item row keeps exactly the other items. |
| EnumSourceLoader.LoadCollectionItems | src/main/java/com/czertainly/core/util/collection/EnumCollectionSourceLoader.java:19-46 | An unknown or missing enum class name gives no items. Otherwise each code becomes one item, in order: no uuid or description, the code's default flag, and the code as both reference and data, owned by the source's collection. A source without a collection uuid throws a NullPointerException iff there is a code to map. |
| EnumSourceLoader.ContentTypeIgnored | src/main/java/com/czertainly/core/util/collection/EnumCollectionSourceLoader.java:19-46 | The collection's content type does not affect what is loaded. |
| EnumSourceLoader.LoadedContentsAreTheCodes | src/main/java/com/czertainly/core/util/collection/EnumCollectionSourceLoader.java:33-45 | The loaded contents are exactly the enum's codes. |
| SourceProcessor.LoadCollectionItems | src/main/java/com/czertainly/core/util/collection/CollectionSourceProcessor.java:57-70 | An ENUM source goes to the enum loader. REST_API and CSV_FILE have no loader and throw a NullPointerException. |
| SourceProcessor.LoadCollectionItemsContent | src/main/java/com/czertainly/core/util/collection/CollectionSourceProcessor.java:36-55 | An unknown name gives no content. A collection without a source gives its items' contents. A sourced one gives the loaded items' contents, or the loader's error. |
| SourceProcessor.OnlyEnumSourcesLoad | src/main/java/com/czertainly/core/util/collection/CollectionSourceProcessor.java:59-67 | Content of a sourced collection is available only when the source is ENUM. |
| CsvImport.WithoutChar | src/main/java/com/czertainly/core/service/impl/CollectionServiceImpl.java:254 | Removing carriage returns leaves every other character and no carriage return. |
| CsvImport.LineRow | src/main/java/com/czertainly/core/service/impl/CollectionServiceImpl.java:257-265 | A line made only of ';' throws on field 0. An empty first field is skipped. A row's value is never empty and never holds ';'. |
| CsvImport.RowsOf | src/main/java/com/czertainly/core/service/impl/CollectionServiceImpl.java:256-258 | The import fails iff some line splits into no fields, and that failure is IndexOutOfBounds. |
| CsvImport.KeepFirst | src/main/java/com/czertainly/core/service/impl/CollectionServiceImpl.java:259-260 | Deduplication keeps every value once and loses none. |
| CsvImport.KeepFirstTakesFirst | src/main/java/com/czertainly/core/service/impl/CollectionServiceImpl.java:259-260 | Each kept row is the first row with its value, and kept rows follow the order of those first rows. |
| CsvImport.ImportRows | src/main/java/com/czertainly/core/service/impl/CollectionServiceImpl.java:253-270 | The decoded text imports iff no line splits into nothing, and the rows have distinct values. |
| CsvImport.ParseCsv | src/main/java/com/czertainly/core/service/impl/CollectionServiceImpl.java:252-270 | The loop, with its set of values already seen, computes exactly the rows of the reference definition. |
| CsvImport.ImportedValues | src/main/java/com/czertainly/core/service/impl/CollectionServiceImpl.java:257-261 | A value is imported iff it is non-empty and is the first field of some line. |
| CsvImport.ImportedItems | src/main/java/com/czertainly/core/service/impl/CollectionServiceImpl.java:263-266 | Each row becomes an item of the collection with the value as both reference and data, the row's description and no default flag. |
| CsvImport.ImportedContentsDistinct | src/main/java/com/czertainly/core/service/impl/CollectionServiceImpl.java:259-266 | An import never stores two items with the same content. |
| CollectionService.CollectionDetail | src/main/java/com/czertainly/core/service/impl/CollectionServiceImpl.java:328-346 | The detail copies uuid, name, description, content type and system flag. A plain collection lists its own items. A sourced one lists the loaded items and the source, or fails with the loader's error. |
| CollectionService.GetCollection | src/main/java/com/czertainly/core/service/impl/CollectionServiceImpl.java:86-91 | An unknown uuid is NotFound. Otherwise the result is the collection's detail. |
| CollectionService.GetCreatedCollection | src/main/java/com/czertainly/core/service/impl/CollectionServiceImpl.java:86-124 | Reading a collection just created under a fresh uuid returns the detail the creation returned. |
| CollectionService.NewSource | src/main/java/com/czertainly/core/service/impl/CollectionServiceImpl.java:111-118 | A new source copies type, name and URL, belongs to the collection, and parses a given credential uuid. It fails with IllegalArgument iff that uuid does not parse. |
| CollectionService.CreateCollection | src/main/java/com/czertainly/core/service/impl/CollectionServiceImpl.java:95-124 | A blank name and a taken name are rejected with their messages. It succeeds iff the name is non-blank and free and any source request parses and is ENUM. A well-formed source of another type is a NullPointerException, since no loader lists its items. Success appends one empty, user-owned collection with the request's fields and source, changes nothing else, and returns its detail. |
| CollectionService.OnlyEnumSourcesCreated | src/main/java/com/czertainly/core/service/impl/CollectionServiceImpl.java:111-123 | Creating a collection with a REST_API or CSV_FILE source always fails. |
| CollectionService.CreateKeepsNamesUnique | src/main/java/com/czertainly/core/service/impl/CollectionServiceImpl.java:99-102 | Creation preserves unique collection names. |
| CollectionService.OverwriteSource | src/main/java/com/czertainly/core/service/impl/CollectionServiceImpl.java:144-149 | An existing source takes the request's type, name, URL and credential. As written, a missing credential throws a NullPointerException. An unparsable one throws IllegalArgument. |
| CollectionService.EditCollection | src/main/java/com/czertainly/core/service/impl/CollectionServiceImpl.java:128-165 | An unknown uuid and a system collection are rejected. Success changes only this collection's description and source: overwritten if it had one, created otherwise, removed if the request has none. It returns the new detail. It succeeds iff the collection is found and not a system collection and, when the request has a source, that source can be built and its items listed. |
| CollectionService.EditWithoutCredentialThrows | src/main/java/com/czertainly/core/service/impl/CollectionServiceImpl.java:148 | As written: editing a sourced collection with a source request that has no credential throws, though creating the same source would succeed. |
| CollectionService.EditedSourceMatchesRequest | src/main/java/com/czertainly/core/service/impl/CollectionServiceImpl.java:144-157 | With the credential optional, whenever the edit succeeds the edited collection's source is the one a new collection would get from the same request, so a missing credential clears it. |
| CollectionService.CredentialRulesAgree | src/main/java/com/czertainly/core/service/impl/CollectionServiceImpl.java:144-149 | The corrected edit differs from the as-written one only when overwriting a source without a credential. |
| CollectionService.DeleteCollection | src/main/java/com/czertainly/core/service/impl/CollectionServiceImpl.java:169-179 | An unknown uuid is NotFound and a system collection is rejected. Success removes exactly that user collection. |
| CollectionService.UniqueUuidsFlag | src/main/java/com/czertainly/core/service/impl/CollectionServiceImpl.java:170-175 | With unique uuids, the system flag is a property of the uuid. |
| CollectionService.BulkDeleteRemovesListedUserCollections | src/main/java/com/czertainly/core/service/impl/CollectionServiceImpl.java:183-193 | Bulk delete removes exactly the listed user collections, skipping unknown and system ones. |
| CollectionService.BulkDeleteByFlag | src/main/java/com/czertainly/core/service/impl/CollectionServiceImpl.java:183-193 | The same holds whenever each uuid has one system flag. |
| CollectionService.AddCollectionItem | src/main/java/com/czertainly/core/service/impl/CollectionServiceImpl.java:197-232 | These cases are rejected with their messages, in order: unknown collection, system collection, sourced collection, empty content, invalid content, duplicate content. It succeeds iff every check passes. Success appends exactly one item to this collection, changes nothing else, and returns its dto. |
| CollectionService.AddKeepsContentsDistinct | src/main/java/com/czertainly/core/service/impl/CollectionServiceImpl.java:219-222 | Adding an item keeps a collection's contents distinct. |
| CollectionService.ImportCollectionItems | src/main/java/com/czertainly/core/service/impl/CollectionServiceImpl.java:236-275 | Unknown, system and sourced collections are rejected, and undecodable Base64 is IllegalArgument. The import fails iff some CSV line splits into nothing. Success replaces the items with the imported ones, which have distinct contents, and returns the detail. |
| CollectionService.EditCollectionItem | src/main/java/com/czertainly/core/service/impl/CollectionServiceImpl.java:279-304 | Unknown collection, unparsable item uuid and unknown item are rejected. Once collection and item are found: content the check rejects is a validation error with the content-invalid prefix and the check's message; otherwise a clash found by the skip rule is a NullPointerException when the data is null and else a validation error with the duplicate prefix and the data; otherwise the edit succeeds. Success saves the item with the request's fields and returns its dto. |
| CollectionService.EditedItemReadBack | src/main/java/com/czertainly/core/service/impl/CollectionServiceImpl.java:283-303 | After an edit the item's uuid finds the found row with the request's description, default flag and content. Every other item row is unchanged. |
| CollectionService.UpperCaseUuidClashesWithItself | src/main/java/com/czertainly/core/service/impl/CollectionServiceImpl.java:292-296 | As written: an item uuid given in upper case is not skipped, so re-saving an item with its own content is rejected as a duplicate. |
| CollectionService.UpperCaseUuidParses | src/main/java/com/czertainly/core/service/impl/CollectionServiceImpl.java:283 | The upper-case uuid text parses, and it prints differently from how it was given. |
| CollectionService.EditKeepingContentSucceeds | src/main/java/com/czertainly/core/service/impl/CollectionServiceImpl.java:292-296 | Skipping the item by its parsed uuid, an item re-saved with its own content is never rejected as a duplicate. |
| CollectionService.SkipRulesAgreeOnPrintedUuid | src/main/java/com/czertainly/core/service/impl/CollectionServiceImpl.java:294 | For uuid text already in printed form, both skip rules give the same result. |
| CollectionService.DeleteCollectionItem | src/main/java/com/czertainly/core/service/impl/CollectionServiceImpl.java:308-314 | An unparsable uuid is IllegalArgument and an unknown item is NotFound. Success deletes that item row wherever it is. |
| CollectionService.DeleteItemIgnoresCollection | src/main/java/com/czertainly/core/service/impl/CollectionServiceImpl.java:308-314 | The collection uuid argument has no effect on item deletion. |
| CollectionService.BulkDeleteItemsRemovesListed | src/main/java/com/czertainly/core/service/impl/CollectionServiceImpl.java:318-326 | Bulk item delete fails iff some listed text is not a uuid. Otherwise it removes exactly the listed items from every collection, skipping unknown ones, and changes nothing else. |
| EnumSync.EnumCollections | src/main/java/com/czertainly/core/model/collection/CollectionEnumSynchronizer.java:54 | It selects exactly the collections whose source is ENUM. |
| EnumSync.ByName | src/main/java/com/czertainly/core/model/collection/CollectionEnumSynchronizer.java:54-55 | Indexing by name fails with a duplicate-key error iff two collections share a name. Otherwise it maps each name to its collection. |
| EnumSync.Renamed | src/main/java/com/czertainly/core/model/collection/CollectionEnumSynchronizer.java:60-63 | A reclaimed collection keeps everything but its source's name, which becomes the enum's class name. |
| EnumSync.Created | src/main/java/com/czertainly/core/model/collection/CollectionEnumSynchronizer.java:73-86 | A created collection is a system collection with no items, the enum's name, description and content type, and an ENUM source naming the enum class. |
| EnumSync.Step | src/main/java/com/czertainly/core/model/collection/CollectionEnumSynchronizer.java:57-87 | An enum whose name matches an ENUM collection still on the deletion list renames that collection's source to the enum's class name and takes it off the list. A missing source name throws a NullPointerException. An enum whose name another collection holds is AlreadyExist. Otherwise a new collection is appended. |
| EnumSync.Register | src/main/java/com/czertainly/core/model/collection/CollectionEnumSynchronizer.java:52-97 | Two ENUM collections with one name abort before any change. |
| EnumSync.RegisterCompletes | src/main/java/com/czertainly/core/model/collection/CollectionEnumSynchronizer.java:52-97 | Registration ends without an exception when the ENUM collection names are distinct, the enum names are distinct, and every collection carrying an enum's name is an ENUM collection whose source names a class. |
| EnumSync.OtherCollectionsUntouched | src/main/java/com/czertainly/core/model/collection/CollectionEnumSynchronizer.java:52-97 | Collections without an ENUM source survive registration, even when it throws. |
| EnumSync.EnumNamesMatchRegistry | src/main/java/com/czertainly/core/model/collection/CollectionEnumSynchronizer.java:52-97 | After a successful registration, the names of the ENUM collections are exactly the registered enums' names. |
| EnumSync.ExistingCollectionReclaimed | src/main/java/com/czertainly/core/model/collection/CollectionEnumSynchronizer.java:58-64 | An ENUM collection named by an enum is kept, with its source renamed to that enum's class. |
| EnumSync.MissingCollectionCreated | src/main/java/com/czertainly/core/model/collection/CollectionEnumSynchronizer.java:73-86 | An enum without an ENUM collection of its name gets the new system collection. |
| EnumSync.UnclaimedCollectionDeleted | src/main/java/com/czertainly/core/model/collection/CollectionEnumSynchronizer.java:90-94 | An ENUM collection no enum names is deleted. |
| EnumSync.TakenNameStopsSync | src/main/java/com/czertainly/core/model/collection/CollectionEnumSynchronizer.java:66-69 | An enum whose name is held by a collection without an ENUM source makes registration throw. |
| EnumSync.HaltPersists | src/main/java/com/czertainly/core/model/collection/CollectionEnumSynchronizer.java:57-87 | Once the loop has thrown, no later enum is processed. |

## Left out

- Token parsing, OIDC discovery, JWK signature verification, the authentication service call, the policy engine, content validation against a content type, Base64 decoding and URI parsing: these are library or remote calls, modelled as function-typed parameters.
- The Base64 step and argument checks of Spring's `HttpHeaders.setBasicAuth`: the model keeps the `user:password` pair before encoding.
- The JSON mapping of the raw profile in `getUserProfile` (Jackson's `ObjectMapper` with unknown properties ignored): it is library parsing, modelled as the `readProfile` parameter.
- OAuth2Settings.OfferedFoundByName: the lookup by name relies on the settings map storing each provider under its own name (`KeyedByName`). The settings service is not part of this model, so this is a stated assumption.
- EnumSourceLoader.CodeItem: the item's data is the code's text. The source stores the enum constant itself as data and its `toString()` as the reference, so data equality is modelled on the text.
- EnumSync.RegisterCompletes: it states a sufficient condition for completion. The necessary side is stated only for duplicate ENUM names (`Register`) and for a name held by a collection that is not ENUM (`TakenNameStopsSync`). Repeated enum names and a claimed source without a class name are not shown to throw.
- JwtDecoder.Validate: the validators that `JwtValidators.createDefaultWithValidators` adds on its own are not modelled. In the Spring Security versions that have the method, this includes the X.509 certificate-thumbprint validator for tokens with a `cnf` claim. The verdict is that of the three configured validators, and the library version is not part of this model.
- JwtDecoder.Validate: now, `exp` and `nbf` are whole seconds. `JwtTimestampValidator` compares `Instant`s with sub-second precision, so the two can disagree within the boundary second.
- The MDC logging context and all logging: these have no effect on results.
- A null issuer URL on a configured provider: provider settings are read from configuration where the URL is required.
- `OAuth2Constants` is not part of this model. The token header name comes from `Constants.java`, and the internal provider's registration id is a parameter.
- The JSON serialization of item content (`AttributeDefinitionUtils`): content is compared structurally, as the deserialized `BaseAttributeContent` is.
- `CertificateTypeCollection` and `AttributeProcessor`: these are a concrete enum and a consumer outside the collection rules.
- `listCollections` and the `@ExternalAuthorization` checks on every service method: these are a filtered pass-through and an aspect.
- `UUID.fromString`'s lenient forms (fewer digits per group, and an explicit `+` sign that `Long.parseLong` accepts in a group): only the dashed 36-character hexadecimal form is modelled.
- Random uuid generation: new uuids are a parameter (`newUuid`).
- EnumSync.Register: the rename of the matched collection's source is modelled as saved, though the source code changes a loaded entity outside a transaction and relies on the persistence context to flush it.
- CollectionService.AddCollectionItem: a null content object in the request is not modelled. The content is always present and only its data may be absent.
- JavaText.Split: only single-character literal separators are modelled, the only ones the code passes.
- FormEncoding.EncodeRoundTrip: only strings of Unicode scalar values are modelled, since `char` cannot hold a surrogate. A Java `String` is UTF-16, and `URLEncoder` writes an unpaired surrogate as `%3F`, so such a string does not come back from decoding.
- FormEncoding.EncodeInjective: only strings of Unicode scalar values are modelled. In Java an unpaired surrogate and `?` both encode to `%3F`, so the encoding is not injective on all Java strings.
- TokenHeaders.EncodeCredential: the decode-back promise covers credentials of Unicode scalar values only. An unpaired surrogate in a Java credential is encoded as `%3F` and decodes to `?`.
- TokenHeaders.BasicCredentialsRecoverable: the client id and secret are recovered only when they are strings of Unicode scalar values. A Java secret with an unpaired surrogate cannot be told apart from the same secret with `?` in its place.

## Findings

| source | as written | input that shows it | evidently intended | confidence | as-written member | corrected member |
|---|---|---|---|---|---|---|
| src/main/java/com/czertainly/core/auth/oauth2/CzertainlyJwtDecoder.java:85 | The audience predicate reads the `aud` claim list without a null check. The resulting NullPointerException is not a `JwtException`, so the catch at lines 90-97 does not audit it. | A valid signed token without an `aud` claim, for a provider with audiences configured | A missing `aud` fails the audience check and is audited like every other rejection | not executed | JwtDecoder.MissingAudienceEscapesAudit | JwtDecoder.RejectionsAuditedOnce |
| src/main/java/com/czertainly/core/service/impl/CollectionServiceImpl.java:294 | The duplicate check skips the edited item by comparing its printed uuid with the raw path text | Editing item `AAAAAAAA-0000-0000-0000-000000000000` with its own unchanged content | The item being edited is skipped whatever the case of its uuid text | not executed | CollectionService.UpperCaseUuidClashesWithItself | CollectionService.EditKeepingContentSucceeds |
| src/main/java/com/czertainly/core/service/impl/CollectionServiceImpl.java:148 | `UUID.fromString` on the request's credential uuid runs without the null guard that lines 116 and 155 apply | Editing a sourced collection with a source request that has no credential uuid | A missing credential uuid clears the credential, as it does when a source is created | not executed | CollectionService.EditWithoutCredentialThrows | CollectionService.EditedSourceMatchesRequest |
