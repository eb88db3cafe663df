# The token and key lifecycle of mini-idp, verified

mini-idp hands short-lived signed tokens to registered clients and publishes the public keys with
which anyone can verify them offline. This project models that life cycle in Dafny and proves what
the service promises about it, over every run.

## What is modelled

The centre is one state machine (`System.dfy`): a clock, four services with memory and file (signing
keys, denylist, client registry, audit log), any number of token requests in progress, the set of
everything that was ever signed, and a crash that may follow any step. No call is atomic in it.
A token request is seven steps, from authentication to response, with rotations, prunes and restarts
possible between any two; a rotation reads the clock three times; and a save is four file-system
steps (`JsonStores.dfy`), each of which a crash may follow. A service holds its lock from its change of
memory until its save returns, and its history counts as committed from the atomic move on
(`Persistence.dfy`).

`KeyMachine.dfy`, `Revocations.dfy`, `Clients.dfy` and `Audits.dfy` hold the services as such
machines, each with the history it refines and the invariant that ties memory and file to it.
`SystemInvariant.dfy` puts them together. `Requests.dfy` traces threads and tokens to the steps of one request,
`Calls.dfy` says what a returned call leaves behind, and `Theorems.dfy` and `Bounds.dfy` state what follows for
every run. A verification is not a step but a function of what a verifier holds: a key set fetched in one state, a
denylist polled in another, its own clock, at most `skew` seconds off the server's, and its leeway.

The services are also there as the objects they are (`SigningKeyServices.dfy`,
`RevocationServices.dfy`, `ClientServices.dfy`, `Audits.dfy`, `JsonStores.dfy`, `Routers.dfy`,
`TokenIssuers.dfy`, `ApiHandlers.dfy`): classes whose methods reassign their lists and maps and are proved
against the same specification functions the machine applies. The operations of Java's collections they call
(`put`, `remove`, `removeIf`, `add`) are functions on sequences; the loops are those of the source. The lemmas
named `Undisturbed...` tie the two: when a service is at rest the machine's steps are enabled, and run without
interference they leave exactly what the method ensures.

The wire format is concrete: base64url down to the bits and its table, splitting on dots, the ASCII conversion
with its replacement character, the key prefix, the words of the grants. Grants are read and written with the
source's exceptions.

## Where the code and its documentation differ

- The retention of retired keys is documented to need to exceed the token ttl. That is enough only for
  leeway plus skew of at most two seconds; the exact bound is `Bounds.OverlapBound`, and the server's
  doubled ttl meets it exactly when leeway plus skew is at most ttl + 1.
- A revocation is documented to be safe to forget once the token's exp has passed. With a leeway a token is
  accepted after its exp: `Bounds.HorizonBound` has the exact condition for every horizon,
  `Bounds.DocumentedHorizonBound` the documented case (leeway plus skew of at most one second), and
  `Bounds.DefaultHorizonBound` the case of the revoke handler's default, which depends on when the revoke came.
- `verify` is documented to return a result. For some inputs, among them an undecodable signature under a
  published key id, it throws; `TokenVerifier.ThrowsExactly` says for which.
- Exactly one key is documented to be active. That holds for every file the service writes. Of all documents
  it could load, `SigningKeys.StartedHasOneActiveKey` says exactly for which it holds, and
  `SigningKeys.RotatedHasOneActiveKey` that it holds for all after one rotation.
- Write-before-use holds while saves work. After one that throws, the service goes on with a signer its file
  does not hold (`SigningKeys.SignerIsSavedExactly`).

`dafny verify dfyconfig.toml` checks the whole project.

## Model

| member | source | states |
|---|---|---|
| `Bounds.OverlapBound` | core/src/main/java/com/codeheadsystems/miniidp/service/SigningKeyService.java:22-25 | The class promise, decided: over every interleaving of issue steps, rotations, prunes, key-set fetches, ticks, crashes and restarts, every issued, undenied token presented inside its window verifies against any key set fetched at or after its signing **if and only if** retention >= ttl + leeway + skew - 1 (skew: how far the verifier's clock may be off; 0 for one shared clock) |
| `Theorems.RetentionCoversTokens` | core/src/main/java/com/codeheadsystems/miniidp/service/SigningKeyService.java:124-127 | One half of that bound, for one presentation: a prune by the `<` cutoff never removes the key of a token that some verifier may still accept |
| `Bounds.ShortRetentionLosesTokens` | core/src/main/java/com/codeheadsystems/miniidp/service/SigningKeyService.java:124-127 | The other half: for every shorter retention there is a legal run, built step by step, in which a live token is answered UNKNOWN_KID |
| `Witnesses.OutlivedKey` | core/src/main/java/com/codeheadsystems/miniidp/service/TokenIssuer.java:63-81 | A legal run in which a token is issued at second 0, its key is rotated out in the same second, and one second past the retention only the new key is served |
| `Bounds.ServerRetentionBound` | server/src/main/java/com/codeheadsystems/miniidp/server/ServerConfig.java:188-190 | For every ttl that `resolve` accepts, the server's retention of twice the ttl is overlap-safe if and only if leeway + skew <= ttl + 1 |
| `Bounds.ResolveTtl` | server/src/main/java/com/codeheadsystems/miniidp/server/ServerConfig.java:112-115 | The ttl is the given one if at least 1, 300 if none is given, and otherwise refused |
| `Bounds.DocumentedRetentionBound` | core/src/main/java/com/codeheadsystems/miniidp/service/SigningKeyService.java:43-43 | The documented requirement, retention above the ttl, read at its minimum (ttl + 1): it suffices if and only if leeway + skew <= 2 |
| `Theorems.FetchedKeyIsFound` | core/src/main/java/com/codeheadsystems/miniidp/service/SigningKeyService.java:78-85 | A key not retired before `now - retention` is found under its id in a fetched set and decodes to the very bytes it was stored with; no other key of the set has the id |
| `Theorems.AcceptedTokensAreAuthentic` | core/src/main/java/com/codeheadsystems/miniidp/service/TokenVerifier.java:55-99 | Whatever text is presented, if a verifier with a fetched key set accepts it, then its header and payload segments and its claims are those of a token that one request made: on one thread, with no crash and no other request of that thread in between, it authenticated the client, read the clock, got the signer and signed; the grants are those the registry held for the client, under the secret presented, at that authentication, however the client changed later |
| `Theorems.AcceptedIsIssued` | core/src/main/java/com/codeheadsystems/miniidp/token/Jws.java:82-93 | Acceptance implies an issued token with the same header segment, payload segment and claims; the signature text may differ |
| `Requests.RequestHistory` | server/src/main/java/com/codeheadsystems/miniidp/server/ApiHandlers.java:115-133 | Every request in progress, in every run, stands where its own earlier steps brought it: the record from its own authentication; the claims, field by field, from its own clock read and the id drawn there; the key handed to it; the token it signed; the log entry it appended; in this order and without a crash in between |
| `Requests.TokenHistory` | core/src/main/java/com/codeheadsystems/miniidp/service/TokenIssuer.java:63-81 | Every issued token was signed by a request, and carries that request's record, claims (issuer, audience, subject, times, jti, grants, no confirmation), and key |
| `Requests.RespondAnswersOwnRequest` | server/src/main/java/com/codeheadsystems/miniidp/server/ApiHandlers.java:125-133 | Each respond step gives exactly one answer more: the text of the token that this thread's own request authenticated for, signed and logged |
| `Requests.ResponseHistory` | server/src/main/java/com/codeheadsystems/miniidp/server/ApiHandlers.java:125-133 | Every answer given so far in a run was given by such a step of its own thread |
| `Witnesses.UndisturbedRequest` | server/src/main/java/com/codeheadsystems/miniidp/server/ApiHandlers.java:115-133 | From every state of every run in which the services are at rest, a request can be served, and without interference leaves one answer with the claims of this client under the current key, one entry more in memory and file, and everything else as it was |
| `ApiHandlers.ApiHandlers.Token` | server/src/main/java/com/codeheadsystems/miniidp/server/ApiHandlers.java:107-133 | The handler as one call: bad credentials change nothing and are told apart from other failures; else the entry for this client and jti is appended and saved, and only if that works is the answer given, with this call's own token and its metadata |
| `ApiHandlers.ApiHandlers.RevokeToken` | server/src/main/java/com/codeheadsystems/miniidp/server/ApiHandlers.java:231-245 | The handler as one call: a blank id changes nothing; the horizon is the requested one, or one ttl from the handler's clock read; the audit entry follows only a revoke that was saved |
| `Theorems.RevokedStaysRejected` | core/src/main/java/com/codeheadsystems/miniidp/service/RevocationService.java:52-78 | Once a revoke step has returned, whatever ran beside it, and no later revoke of the id lowers its horizon, nothing carrying that id is accepted at any later poll and verification, across prunes, crashes and restarts, unless its exp + leeway + skew - 1 exceeds the horizon |
| `Calls.RevokeLasts` | core/src/main/java/com/codeheadsystems/miniidp/service/RevocationService.java:33-61 | From the return of a revoke step on, the horizon recorded for the id in the histories of file and memory is at least as far out, until a revoke lowers it |
| `Calls.LastRevokeDecides` | core/src/main/java/com/codeheadsystems/miniidp/service/RevocationService.java:33-82 | At every later state with the lock free, and no further revoke of the id, it is denied if and only if the returned revoke's horizon is now or later, across crashes and restarts |
| `Calls.NeverRevokedNeverDenied` | core/src/main/java/com/codeheadsystems/miniidp/service/RevocationService.java:64-73 | An id no step of the run revoked is never denied |
| `Bounds.HorizonBound` | core/src/main/java/com/codeheadsystems/miniidp/service/RevocationService.java:43-61 | Revoking with a horizon `margin` seconds past the token's exp (before it, if negative) keeps the token out, over all runs with that revoke step, **if and only if** margin >= leeway + skew - 1 |
| `Bounds.DocumentedHorizonBound` | core/src/main/java/com/codeheadsystems/miniidp/service/RevocationService.java:16-19 | The documented case, an entry forgotten once exp has passed: harmless if and only if leeway + skew <= 1 |
| `Bounds.NearHorizonFails` | core/src/main/java/com/codeheadsystems/miniidp/service/RevocationService.java:75-78 | The failing half: for every nearer horizon, given at any second at which the token can still be accepted, a legal run with that very revoke step after which the token is accepted again |
| `Bounds.FarHorizonHolds` | core/src/main/java/com/codeheadsystems/miniidp/service/RevocationService.java:75-78 | The safe half, for one presentation of one revoked token |
| `Bounds.DefaultHorizonBound` | server/src/main/java/com/codeheadsystems/miniidp/server/ApiHandlers.java:239-242 | When the handler reads the clock, defaults the horizon to one ttl from then, and makes the revoke step with it: the token is kept out, over all such runs, if and only if the clock read came at least leeway + skew - 1 seconds after its iat |
| `Bounds.EarlyDefaultRevokeFails` | server/src/main/java/com/codeheadsystems/miniidp/server/ApiHandlers.java:239-242 | The failing half: for every earlier second there is a legal run in which the handler's default revoke at that second is outlived by the token |
| `Bounds.LateDefaultRevokeHolds` | server/src/main/java/com/codeheadsystems/miniidp/server/ApiHandlers.java:239-242 | The safe half, for one presentation of one token so revoked |
| `Witnesses.OutlivedRevocation` | core/src/main/java/com/codeheadsystems/miniidp/service/RevocationService.java:75-78 | A legal run in which the first token, issued at second 0, is revoked by a revoke step at a given second up to a given horizon, the call returns, and one second past the horizon the denylist is empty while the token's key is still active |
| `Theorems.AuditedBeforeResponse` | server/src/main/java/com/codeheadsystems/miniidp/server/ApiHandlers.java:125-133 | In every reachable state each answer given was given by a thread to its own request, and the token in it has its `token.issued` entry in the file, at the position that request appended it |
| `Theorems.EntriesNameIssuedTokens` | server/src/main/java/com/codeheadsystems/miniidp/server/ApiHandlers.java:126-126 | Every `token.issued` entry in the file names the client and jti of a token some issue step produced |
| `Theorems.AuditLogOnlyAppends` | core/src/main/java/com/codeheadsystems/miniidp/service/AuditService.java:43-46 | Between any two points of a run the file's log only grows at its end, its timestamps never decrease, and the file is always whole |
| `Theorems.WriteBeforeUse` | core/src/main/java/com/codeheadsystems/miniidp/service/SigningKeyService.java:51-70 | A key handed out by `currentSigner` is in the file at every later state, a crash between any two steps of a save included, until it has been retired longer than the retention, and it is never retired before it was handed out |
| `Theorems.ReachableKeys` | core/src/main/java/com/codeheadsystems/miniidp/service/SigningKeyService.java:78-85 | In every reachable state with the lock free: the served keys are the whole creation history without the expired ones, their number is one plus the rotations retired within [now - retention, now], and memory is well shaped |
| `Theorems.ReachableAnswers` | core/src/main/java/com/codeheadsystems/miniidp/service/RevocationService.java:64-67 | In every reachable state all four live files are whole; `isRevoked` and `authenticate` answer as the recorded horizons and credentials say, and an authenticated record carries the recorded authorization |
| `SystemInvariant.StepKeepsInv` | server/src/main/java/com/codeheadsystems/miniidp/server/ApiHandlers.java:99-134 | Each of the machine's steps (clock, keys, denylist, registry, audit log, seven steps of a token request, foreign signatures, crash) keeps the whole invariant |
| `SystemInvariant.RunKeepsInv` | server/src/main/java/com/codeheadsystems/miniidp/server/ApiHandlers.java:99-134 | The invariant holds at the end of every legal run |
| `SystemInvariant.RunGrows` | core/src/main/java/com/codeheadsystems/miniidp/service/SigningKeyService.java:92-104 | Along a run the clock, issued tokens, signatures, responses and durable log only grow; keys keep id, bytes and place, and a retirement is never changed |
| `SystemInvariant.NewServiceKeys` | core/src/main/java/com/codeheadsystems/miniidp/service/SigningKeyService.java:111-122 | The only step that makes a public key the service's own is a generation, and then of the generated key |
| `KeyMachine.StepKeepsInv` | core/src/main/java/com/codeheadsystems/miniidp/service/SigningKeyService.java:92-140 | Every step of boot, rotation, lazy prune and save keeps: memory and file are suffixes of the creation history that miss only expired keys, with the active key last |
| `KeyMachine.TickKeepsInv` | core/src/main/java/com/codeheadsystems/miniidp/service/SigningKeyService.java:124-127 | Time passing keeps it: what expired stays expired |
| `KeyMachine.PruneRetains` | core/src/main/java/com/codeheadsystems/miniidp/service/SigningKeyService.java:124-127 | On a list in order, pruning a partly pruned copy gives the same list as pruning the full history, and drops a prefix |
| `KeyMachine.ActiveIsLast` | core/src/main/java/com/codeheadsystems/miniidp/service/SigningKeyService.java:129-136 | `findActive` on memory or file finds the last key of the history |
| `KeyTheorems.LazyPruningIsEager` | core/src/main/java/com/codeheadsystems/miniidp/service/SigningKeyService.java:78-85 | The served keys are the full creation history filtered by the cutoff, and serving straight from the file would answer the same: the unpersisted prune and the restart that undoes it cannot be observed |
| `KeyTheorems.ServedKeyCount` | core/src/main/java/com/codeheadsystems/miniidp/service/SigningKeyService.java:78-85 | Exactly one plus the number of committed rotations whose retirement lies in [now - retention, now] keys are served |
| `KeyTheorems.KeysAreWellShaped` | core/src/main/java/com/codeheadsystems/miniidp/model/SigningKeyRecord.java:17-20 | File always, and memory with the lock free: ids distinct, exactly one active record, last and named by activeKid, all others retired, retirements nondecreasing, each key created no earlier than its predecessor's retirement |
| `KeyTheorems.StepKeepsHeld` | core/src/main/java/com/codeheadsystems/miniidp/service/SigningKeyService.java:92-104 | No step of the key service retires a key earlier than a moment that has already come, or moves it |
| `KeyTheorems.SignerIsLast` | core/src/main/java/com/codeheadsystems/miniidp/service/SigningKeyService.java:64-70 | What `currentSigner` hands out is the last, unretired key of the committed history, with the private key of its published public key |
| `KeyTheorems.HandedOutIsDurable` | core/src/main/java/com/codeheadsystems/miniidp/service/SigningKeyService.java:138-140 | A key held since some moment is in the whole live document, unless expired |
| `KeyTheorems.HeldIsServed` | core/src/main/java/com/codeheadsystems/miniidp/service/SigningKeyService.java:78-85 | A key not retired before `now - retention` is among the served keys |
| `KeyTheorems.UndisturbedRotation` | core/src/main/java/com/codeheadsystems/miniidp/service/SigningKeyService.java:92-104 | The machine's rotation steps, uninterrupted, leave the memory, file and rotation count that the method `Rotate` ensures |
| `KeyTheorems.UndisturbedBoot` | core/src/main/java/com/codeheadsystems/miniidp/service/SigningKeyService.java:51-60 | The machine's start, uninterrupted, leaves the memory and file that the constructor ensures |
| `KeyTheorems.UndisturbedServe` | core/src/main/java/com/codeheadsystems/miniidp/service/SigningKeyService.java:78-85 | Serving the key set prunes memory by the cutoff and touches neither file nor history |
| `SigningKeyServices.SigningKeyService.constructor` | core/src/main/java/com/codeheadsystems/miniidp/service/SigningKeyService.java:45-61 | Loads the file if there is one; mints and saves a key exactly when the loaded document names no active record |
| `SigningKeyServices.SigningKeyService.CurrentSigner` | core/src/main/java/com/codeheadsystems/miniidp/service/SigningKeyService.java:64-70 | Id and private key of the active record; none where the source throws |
| `SigningKeyServices.SigningKeyService.JwkSet` | core/src/main/java/com/codeheadsystems/miniidp/service/SigningKeyService.java:78-85 | Prunes memory, leaves the file, and answers the JWKs of what is left in order; none where a stored key cannot be published |
| `SigningKeyServices.SigningKeyService.Rotate` | core/src/main/java/com/codeheadsystems/miniidp/service/SigningKeyService.java:92-104 | The loop, the new key, the prune and the save as one change of list, active id and file, with three separate clock reads; when the save throws, memory has changed and the file has not, and the signer in memory is in the file if and only if the save worked |
| `SigningKeyServices.SigningKeyService.FindActiveKey` | core/src/main/java/com/codeheadsystems/miniidp/service/SigningKeyService.java:129-136 | The loop finds the first record that is active and has the active id |
| `SigningKeys.StartedHasSigner` | core/src/main/java/com/codeheadsystems/miniidp/service/SigningKeyService.java:51-60 | From any loaded document whatever, construction leaves a usable active key |
| `SigningKeys.RotatedHasOneActiveKey` | core/src/main/java/com/codeheadsystems/miniidp/service/SigningKeyService.java:92-104 | From any document whatever, one rotation leaves exactly one active record: the new one, last, and found by `findActive` |
| `SigningKeys.StartedHasOneActiveKey` | core/src/main/java/com/codeheadsystems/miniidp/service/SigningKeyService.java:51-60 | For every loaded document, construction leaves exactly one active record if and only if the document has exactly one and it is the signer, or has none |
| `SigningKeys.StartedMayHaveManyActiveKeys` | core/src/main/java/com/codeheadsystems/miniidp/service/SigningKeyService.java:51-60 | A failing instance: one stale active record beside a dangling activeKid leaves two |
| `SigningKeys.SignerIsSavedExactly` | core/src/main/java/com/codeheadsystems/miniidp/service/SigningKeyService.java:98-103 | After a rotation with an id new to the file, the live document holds the signer's key if and only if the save worked |
| `SigningKeys.PruneMembers` | core/src/main/java/com/codeheadsystems/miniidp/service/SigningKeyService.java:124-127 | A prune keeps exactly the records that are active or retired no earlier than the cutoff |
| `JsonStores.JsonStore.Save` | core/src/main/java/com/codeheadsystems/miniidp/store/JsonStore.java:71-90 | A save that works leaves the whole new document and no temporary file of its own; one that throws, at any point, leaves the files as they were; in every state a crash could freeze, the live path holds the old content or the whole new document |
| `JsonStores.SaveIsAtomic` | core/src/main/java/com/codeheadsystems/miniidp/store/JsonStore.java:78-85 | Each step of a save changes the live path only at the move, and then to the whole new document |
| `Persistence.SavedIsCommitted` | core/src/main/java/com/codeheadsystems/miniidp/store/JsonStore.java:71-90 | The steps of an uninterrupted save together do what the method does |
| `TokenVerifier.SuccessExactly` | core/src/main/java/com/codeheadsystems/miniidp/service/TokenVerifier.java:55-99 | Accepts claims x if and only if the text splits, its header's key is the first published under that id and really signed these bytes, the payload parses to x, x is in force with the leeway, and its id is not denied |
| `TokenVerifier.SignatureComesFirst` | core/src/main/java/com/codeheadsystems/miniidp/service/TokenVerifier.java:70-79 | Every answer that depends on claim data implies a genuine signature |
| `TokenVerifier.BadFormatExactly` | core/src/main/java/com/codeheadsystems/miniidp/service/TokenVerifier.java:59-79 | BAD_FORMAT if and only if there are not three segments, the header cannot be read, or the signature is genuine and the claims cannot be read |
| `TokenVerifier.UnknownKidExactly` | core/src/main/java/com/codeheadsystems/miniidp/service/TokenVerifier.java:66-69 | UNKNOWN_KID if and only if the header is read and has no key id, or one that no published key has |
| `TokenVerifier.BadSignatureExactly` | core/src/main/java/com/codeheadsystems/miniidp/service/TokenVerifier.java:70-72 | BAD_SIGNATURE if and only if the first published key of the id is one, the signature segment decodes, and that key did not make it over these segments |
| `TokenVerifier.LateReasonsExactly` | core/src/main/java/com/codeheadsystems/miniidp/service/TokenVerifier.java:81-98 | The claim reasons and success occur if and only if the signature is genuine and the claims are read; which of them, by the first condition that fails, both directions each |
| `TokenVerifier.ThrowsExactly` | core/src/main/java/com/codeheadsystems/miniidp/service/TokenVerifier.java:53-53 | The documented result is not always given: `verify` throws if and only if the header is the JSON null, the published key cannot be rebuilt, the signature segment is not base64url, or a signed payload is the JSON null |
| `TokenVerifier.UndecodableSignatureThrows` | core/src/main/java/com/codeheadsystems/miniidp/token/Jws.java:82-93 | Under any published key id, any signature segment that does not decode makes `verify` throw; "A" is one |
| `TokenVerifier.FindJwkFinds` | core/src/main/java/com/codeheadsystems/miniidp/service/TokenVerifier.java:101-111 | A key is found if and only if one is published under the id, and then it is one of them |
| `TokenVerifier.FindJwkFirst` | core/src/main/java/com/codeheadsystems/miniidp/service/TokenVerifier.java:101-111 | It is the first of them |
| `TokenIssuers.TokenIssuer.IssueFor` | core/src/main/java/com/codeheadsystems/miniidp/service/TokenIssuer.java:63-90 | The token is the signed text of claims stated field by field, with the id drawn for this call; the answer's jti, expiry, type, lifetime and scope speak of the same; no answer where there is no active key |
| `Jws.SignedTokenRoundTrip` | core/src/main/java/com/codeheadsystems/miniidp/token/Jws.java:46-103 | For every header, claims and signature bytes: the signed text splits into exactly its three segments, and parsing and decoding them returns what was signed |
| `Jws.SignedTokenShape` | core/src/main/java/com/codeheadsystems/miniidp/token/Jws.java:46-52 | A token is the encoded header (EdDSA, JWT, the key id), the encoded claims and the encoded signature with dots between, and signed are the character codes up to the second dot |
| `Jws.AsciiCollapses` | core/src/main/java/com/codeheadsystems/miniidp/token/Jws.java:87-87 | A character outside ASCII and a question mark have the same signed byte |
| `Jws.SplitCompact` | core/src/main/java/com/codeheadsystems/miniidp/token/Jws.java:61-70 | Splitting the compact form of dot-free segments returns them |
| `Jws.CompactSplit` | core/src/main/java/com/codeheadsystems/miniidp/token/Jws.java:61-70 | A text that splits is the compact form of its parts, which are dot-free |
| `Jws.AsciiDetermines` | core/src/main/java/com/codeheadsystems/miniidp/token/Jws.java:82-88 | The ASCII bytes of a signing input determine it, although the conversion itself is lossy |
| `Jws.SigningInputInjective` | core/src/main/java/com/codeheadsystems/miniidp/token/Jws.java:82-83 | A signing input determines its header and payload segments |
| `Jws.MessageDeterminesSegments` | core/src/main/java/com/codeheadsystems/miniidp/token/Jws.java:82-88 | A token over the bytes of an issued one has the issued header and payload segments |
| `Base64Url.DecodeEncode` | core/src/main/java/com/codeheadsystems/miniidp/token/Base64Url.java:23-30 | Decoding undoes encoding for every byte string, whatever its length modulo three |
| `Rfc4648.EncodeIsStandard` | core/src/main/java/com/codeheadsystems/miniidp/token/Base64Url.java:23-25 | The encoder is the encoding of section 5 of RFC 4648: as many letters as the bits need, each the letter of table 2 for its six bits, zeros past the end, no padding |
| `Base64Url.DecodesExactly` | core/src/main/java/com/codeheadsystems/miniidp/token/Base64Url.java:28-30 | A text decodes if and only if, without the padding of a complete last unit, it has only letters and no lone letter at the end |
| `Base64Url.EncodeAlphabet` | core/src/main/java/com/codeheadsystems/miniidp/token/Base64Url.java:23-25 | The output holds only letters of the alphabet: no dot, no padding |
| `Base64Url.EncodeInjective` | core/src/main/java/com/codeheadsystems/miniidp/token/Base64Url.java:23-25 | Different bytes have different encodings |
| `Base64Url.EncodeDecode` | core/src/main/java/com/codeheadsystems/miniidp/token/Base64Url.java:28-30 | Encoding undoes decoding if and only if the text is unpadded, of an encodable length, and has zero unused bits |
| `Base64Url.StrayBitsIgnored` | core/src/main/java/com/codeheadsystems/miniidp/token/Base64Url.java:28-30 | The decoder ignores unused low bits, so two texts can denote one signature |
| `Jwks.PublishingLosesNothing` | core/src/main/java/com/codeheadsystems/miniidp/jwks/Jwk.java:37-47 | A public key survives publication as a JWK and back, byte for byte, if and only if it is 44 bytes with the fixed Ed25519 header; the JWK is an OKP key on Ed25519 for EdDSA signatures with 43 letters of key |
| `Jwks.ToPublicKeyExactly` | core/src/main/java/com/codeheadsystems/miniidp/jwks/Jwk.java:43-58 | A JWK becomes a key if and only if its `x` decodes to 32 bytes, and then the key with these bytes |
| `Jwks.Spki` | core/src/main/java/com/codeheadsystems/miniidp/jwks/Jwk.java:50-58 | The two array copies produce the prefix followed by the raw key |
| `SigningKeys.PublishedAt` | core/src/main/java/com/codeheadsystems/miniidp/service/SigningKeyService.java:78-85 | A list of well-formed records is published one for one, in order, each under its id with its own public key |
| `Grants.From` | core/src/main/java/com/codeheadsystems/miniidp/token/GrantsClaim.java:45-55 | The nested loops produce the claim that spells the authorization: the control flag, and group by group the name and the literal word of each operation |
| `Grants.SpellsExactly` | core/src/main/java/com/codeheadsystems/miniidp/token/GrantsClaim.java:45-55 | That is one claim and no other, and reading it gives the authorization back |
| `Grants.ToAuthorization` | core/src/main/java/com/codeheadsystems/miniidp/token/GrantsClaim.java:64-78 | The nested loops produce the authorization or the first exception of the specification; an authorization is what the claim's words spell, each operation where it first occurs |
| `Grants.ReadingMeans` | core/src/main/java/com/codeheadsystems/miniidp/token/GrantsClaim.java:64-78 | Group by group: the same name, and an operation is granted if and only if its literal word occurs |
| `Grants.FirstFaultDecides` | core/src/main/java/com/codeheadsystems/miniidp/token/GrantsClaim.java:67-74 | A rejected claim throws for a null if and only if its first fault is a null group or name, and as an illegal argument otherwise |
| `Text.BlankExactly` | core/src/main/java/com/codeheadsystems/miniidp/auth/Grant.java:23-23 | A name is blank if and only if it has nothing but the characters Java calls white space, listed one by one |
| `Grants.GrantsSurviveTheWire` | core/src/main/java/com/codeheadsystems/miniidp/token/GrantsClaim.java:45-78 | Reading back the claim of any valid authorization returns it |
| `Grants.RejectsExactlyBadClaims` | core/src/main/java/com/codeheadsystems/miniidp/auth/Grant.java:22-34 | A claim is accepted if and only if every group is present, has a nonblank name, has operations, and names only known ones |
| `Grants.RewritingNormalizes` | core/src/main/java/com/codeheadsystems/miniidp/token/GrantsClaim.java:64-78 | Reading an accepted claim and writing it again drops repeated operations after their first occurrence, and nothing else |
| `Grants.NormalClaimMeansTheSame` | core/src/main/java/com/codeheadsystems/miniidp/token/GrantsClaim.java:64-78 | That normalization is idempotent and allows the same (group, operation) pairs |
| `Grants.ScopeOf` | core/src/main/java/com/codeheadsystems/miniidp/service/TokenIssuer.java:97-108 | The scope is `control`, if granted, and then for each grant in order `group:OPERATION` for each of its operations in order, joined by blanks; the pairs of the token's own `grants` claim |
| `Revocations.DenylistRefinesLatest` | core/src/main/java/com/codeheadsystems/miniidp/service/RevocationService.java:64-67 | An id is denied if and only if the last accepted revoke of it has a horizon of now or later, however reads, prunes and restarts interleave |
| `Revocations.StepKeepsInv` | core/src/main/java/com/codeheadsystems/miniidp/service/RevocationService.java:33-82 | Every step of start, revoke, read and save keeps memory and file in agreement with that history, except for what is past its horizon |
| `Revocations.StepKeepsRevoked` | core/src/main/java/com/codeheadsystems/miniidp/service/RevocationService.java:52-61 | Only a later revoke of the same id with a nearer horizon takes a revocation back |
| `Revocations.UndisturbedRevoke` | core/src/main/java/com/codeheadsystems/miniidp/service/RevocationService.java:52-61 | The machine's revoke steps, uninterrupted, leave what the method `Revoke` ensures |
| `Revocations.UndisturbedRead` | core/src/main/java/com/codeheadsystems/miniidp/service/RevocationService.java:64-73 | A read prunes memory by the clock and touches neither file nor history; a start loads the file |
| `RevocationServices.RevocationService.constructor` | core/src/main/java/com/codeheadsystems/miniidp/service/RevocationService.java:33-41 | Rebuilds the map from the file, a later entry of an id replacing an earlier one in place |
| `RevocationServices.RevocationService.Revoke` | core/src/main/java/com/codeheadsystems/miniidp/service/RevocationService.java:52-61 | Refuses a blank id before any change; otherwise puts, prunes by a second clock read, and saves; a save that throws leaves memory ahead of the file |
| `RevocationServices.RevocationService.IsRevokedNow` | core/src/main/java/com/codeheadsystems/miniidp/service/RevocationService.java:64-67 | Prunes memory only, and answers whether the id is left |
| `RevocationServices.RevocationService.ActiveDenylist` | core/src/main/java/com/codeheadsystems/miniidp/service/RevocationService.java:70-73 | Prunes memory only, and answers what is left in order |
| `Clients.AuthenticationRefinesCredentials` | core/src/main/java/com/codeheadsystems/miniidp/service/ClientService.java:133-142 | With the lock free, a client authenticates if and only if the registry's history holds it with this secret, and its record carries the authorization last set |
| `Clients.AuthenticateExactly` | core/src/main/java/com/codeheadsystems/miniidp/service/ClientService.java:133-142 | A record is returned if and only if it is the one under the id, enabled, and its hash is that of the secret |
| `Calls.LastChangeDecides` | core/src/main/java/com/codeheadsystems/miniidp/service/ClientService.java:64-142 | In every run, until the next change of a client, its last returned one decides, across crashes and restarts: a registered client authenticates with exactly its secret, a removed one with none, one given an authorization exactly as before; and it may do exactly what it was given, nothing if that was nothing |
| `Calls.AuthenticatedWasRegistered` | core/src/main/java/com/codeheadsystems/miniidp/service/ClientService.java:64-75 | In every run, whoever authenticates shows the secret of an earlier registration step of that client |
| `Clients.StepKeepsInv` | core/src/main/java/com/codeheadsystems/miniidp/service/ClientService.java:44-146 | Every step of start, registration, removal, update and save keeps memory and file in agreement with the credential history |
| `Clients.RestartChangesNothing` | core/src/main/java/com/codeheadsystems/miniidp/service/ClientService.java:50-55 | A crash and restart with the lock free reproduce the registry, order included |
| `Clients.UndisturbedChange` | core/src/main/java/com/codeheadsystems/miniidp/service/ClientService.java:64-119 | The machine's registry steps, uninterrupted, leave what the methods ensure |
| `ClientServices.ClientService.constructor` | core/src/main/java/com/codeheadsystems/miniidp/service/ClientService.java:44-55 | Rebuilds the map from the file |
| `ClientServices.ClientService.Register` | core/src/main/java/com/codeheadsystems/miniidp/service/ClientService.java:64-75 | Adds and saves a record with this id, display name and secret, enabled, created now, with the given authorization, or with none at all when none is given |
| `ClientServices.ClientService.RemoveClient` | core/src/main/java/com/codeheadsystems/miniidp/service/ClientService.java:93-99 | Removes and saves a known client; an unknown one changes and saves nothing |
| `ClientServices.ClientService.SetAuthorization` | core/src/main/java/com/codeheadsystems/miniidp/service/ClientService.java:108-119 | Replaces only the authorization (by nothing, when none is given) in place, and saves; an unknown client changes nothing |
| `ClientServices.ClientService.AuthenticateClient` | core/src/main/java/com/codeheadsystems/miniidp/service/ClientService.java:133-142 | The record if the client is known, enabled and shows its secret; else nothing |
| `LinkedMap.LoadValues` | core/src/main/java/com/codeheadsystems/miniidp/service/ClientService.java:50-55 | Reloading the saved values of a registry or denylist rebuilds it, order included |
| `LinkedMap.PutExactly` | core/src/main/java/com/codeheadsystems/miniidp/service/ClientService.java:72-72 | Putting a known key replaces its value in place; a new one goes to the end |
| `LinkedMap.RemoveExactly` | core/src/main/java/com/codeheadsystems/miniidp/service/ClientService.java:94-94 | Removing a key takes out its entry and moves nothing else |
| `Audits.StepKeepsInv` | core/src/main/java/com/codeheadsystems/miniidp/service/AuditService.java:28-46 | Every step keeps memory one entry ahead of the file at most, times in order, and the durable log only growing at its end |
| `Audits.UndisturbedAppend` | core/src/main/java/com/codeheadsystems/miniidp/service/AuditService.java:43-46 | The machine's append steps, uninterrupted, leave what the method `Record` ensures |
| `Audits.AuditService.Record` | core/src/main/java/com/codeheadsystems/miniidp/service/AuditService.java:43-46 | Appends one entry in memory and saves; a save that throws leaves the file as it was |
| `Audits.AuditService.constructor` | core/src/main/java/com/codeheadsystems/miniidp/service/AuditService.java:28-34 | Starts from the log in the file |
| `Routers.Router.Dispatch` | server/src/main/java/com/codeheadsystems/miniidp/server/http/Router.java:69-87 | Runs the first registered route matching path and method, with its variables; 405 if some pattern matches but none with the method; 404 if no pattern matches |
| `Routers.DispatchIsUnique` | server/src/main/java/com/codeheadsystems/miniidp/server/http/Router.java:69-87 | Each request has exactly one such outcome |
| `Routers.Match` | server/src/main/java/com/codeheadsystems/miniidp/server/http/Router.java:90-104 | Bindings if and only if the lengths agree and every literal segment is met |
| `Routers.BindExactly` | server/src/main/java/com/codeheadsystems/miniidp/server/http/Router.java:94-99 | A variable is bound to the segment at its last place in the pattern, and nothing else is bound |
| `Routers.VariableExactly` | server/src/main/java/com/codeheadsystems/miniidp/server/http/Router.java:97-97 | A segment is a variable if and only if it is a name in braces, the empty name included |
| `Routers.OrderDoesNotMatter` | server/src/main/java/com/codeheadsystems/miniidp/server/http/Router.java:69-87 | Where no request fits two routes, every permutation of the registrations dispatches alike |
| `ApiRoutes.SplitPattern` | server/src/main/java/com/codeheadsystems/miniidp/server/http/Router.java:106-112 | Each of the seventeen patterns splits into the segments of its route |
| `ApiRoutes.BuildRouter` | server/src/main/java/com/codeheadsystems/miniidp/server/ApiHandlers.java:72-95 | Registering the seventeen endpoints in order builds this table |
| `ApiRoutes.TableIsUnambiguous` | server/src/main/java/com/codeheadsystems/miniidp/server/ApiHandlers.java:72-95 | No method and path fits two of the seventeen routes |
| `ApiRoutes.TableAnswers` | server/src/main/java/com/codeheadsystems/miniidp/server/ApiHandlers.java:72-95 | For every method and path, what the seventeen routes dispatch is what a table of literal paths and methods says: the endpoint with the client id from the path, 405, or 404 |
| `ApiRoutes.ClientPaths` | server/src/main/java/com/codeheadsystems/miniidp/server/http/Router.java:106-112 | The paths of a client split into their segments for every id without a slash |
| `ApiRoutes.RegistrationOrderDoesNotMatter` | server/src/main/java/com/codeheadsystems/miniidp/server/ApiHandlers.java:72-95 | The server answers so however its registrations are permuted |

## Left out

- Ed25519 is ideal: a signature is valid exactly if its (public key, message, signature) triple was really signed; nobody else holds a service key, and a generated key is new. Curve arithmetic and point validity of a 32-byte key are not modelled.
- Argon2id is ideal: a hash verifies exactly the secret it was made from. `SecureRandom` appears as parameters; that key ids and key pairs are fresh is a condition of the generation step. Fresh jtis and client ids are not needed and not assumed.
- Jackson's JSON text: printing and parsing of headers and claims are a pair of functions, and results that need it assume that parsing undoes printing (`Jws.Faithful`); files hold either a whole document or something torn.
- SigningKeyServices.SigningKeyService.constructor: asks for a file that parses and a first save that works; where the source throws out of construction there is no object to speak of. The same holds for the other three constructors over a file that does not parse. Documents with null ids or null lists are not modelled.
- TokenIssuers.TokenIssuer.IssueFor: is the call without interruption; its separate steps, with anything in between, are those of the machine (`System.IssueStep`).
- ClientServices.ClientService.AuthenticateClient: does not model the time the dummy verification takes.
- Bounds.DocumentedRetentionBound: speaks of the least retention the documentation allows; `Bounds.OverlapBound` has the condition for every retention.
- Clients.RestartChangesNothing: a crash in the middle of a save may lose the change being saved, and only that; `Clients.StepKeepsInv` covers it.
- Runs that go on after a save has thrown: the classes state what such a call leaves behind, and `SigningKeys.SignerIsSavedExactly` that write-before-use then fails; in the machine a save finishes or the process crashes.
- Power loss and missing fsync: the file system is taken to keep what was written and to move atomically. Temporary files left by a crash stay, and are never read.
- ApiHandlers.ApiHandlers.RevokeToken: is the call without interruption; in the machine its clock read, the service's revoke steps and the audit entry are separate steps, which `Bounds.RevokedByDefault` ties together.
- Clocks that go backwards, and 64-bit overflow of times.
- A change of ttl, retention, issuer or audience between restarts of one data directory.
- HTTP exchange, form and Basic credentials, error bodies, admin authentication, logging, discovery and documentation endpoints: of the handlers only the token request, the default horizon and the route table are modelled.
- Command line and environment: only the lower bound on the ttl, its default, and the retention.
- File permissions, constant-time comparison and zeroing of secrets.
- Base64 and PKCS#8 text of keys in the file: a record holds its public key's bytes and a private key known only by them.
- The enabled flag's transitions: no service operation changes it, so a client is enabled as long as it is registered.
