# Validator trust engine and currency codes

This project is a Dafny model of two parts of a ledger node.

**The validator trust engine.** A `ManifestCache` maps each validator's long-lived master key to its current manifest. A manifest delegates to a short-lived signing key and carries a sequence number. The sequence `0xFFFFFFFF` revokes the master key for good.

A `ValidatorList` holds three kinds of configuration:
- the node's own key;
- the static validator keys from its configuration;
- the publishers whose signed lists it accepts.

From these it computes the trusted validator set and the quorum. Its operations are:
- `load` reads configuration tokens, all or nothing per call;
- `applyList` checks a publisher's list and returns a disposition: accepted, stale, same sequence, invalid, untrusted or unsupported version;
- `updateTrusted` expires lists, recomputes the trusted set and reports which node identities were added and removed;
- `quorum` and `expires` report the threshold and the earliest list expiry;
- `listed`, `trusted` and `trustedPublisher` answer membership queries, resolving signing keys to master keys through the manifest cache.

The engine's implementation files are not part of this model. Its behaviour follows the contract that src/test/app/ValidatorList_test.cpp asserts, and the cited lines are that file's.

**The currency-code codec.** `to_string(Currency)` and the two `to_currency` overloads convert a 160-bit currency value to and from text:
- the zero value is the system currency code "XRP";
- the value 1 (`noCurrency`) prints as "1";
- a value whose only non-zero bytes are bytes 12 to 14 prints as that three-character ISO code, when the characters are allowed and differ from the system code;
- any other value prints as 40 hex digits.

The model is split by module:
- `Wrappers`: `Option`.
- `Manifests`: manifests, the cache as a value (`CacheState`) with its rules and lemmas, and the `ManifestCache` class whose `ApplyManifest` updates two maps in place.
- `ValidatorLists`: the engine's rules on values. These cover token parsing, the checks of `applyList` (`CheckList`), expiry, the candidate and trusted sets, the change report, the quorum and the expiry report, with the lemmas about them.
- `TrustEngine`: the `ValidatorList` class. Each operation is a method that updates the object's fields step by step, with loops where the engine walks its collections. Each is proved equal to the rules of `ValidatorLists`.
- `Scenarios`: the unit tests' sequences of calls, replayed on fresh objects. Keys, manifests and lists are parameters. Each method's `ensures` states what the test expects.
- `CurrencyCodes`: the codec and its round-trip properties.

## Model

| member | source | states |
|---|---|---|
| Manifests.CacheState.Apply | src/test/app/ValidatorList_test.cpp:613-651 | A manifest is accepted exactly when its signatures verify and its sequence exceeds the stored one for that master. It is invalid exactly when a signature fails. A manifest that is not accepted changes nothing. An accepted one becomes the master's stored manifest, and the cache stays consistent: each manifest is stored under its own master key, and the index maps only current signing keys to their masters. |
| Manifests.RotationResolves | src/test/app/ValidatorList_test.cpp:613-640 | After an accepted rotation, the new signing key resolves to the master and the master to the new signing key. No other key except the master itself resolves to that master, so the previous signing key no longer does. |
| Manifests.RevocationResolves | src/test/app/ValidatorList_test.cpp:641-651 | After an accepted revocation, `revoked(master)` holds, `getSigningKey(master) == master`, and no key other than the master resolves to it. |
| Manifests.MasterKeyDelegates | src/test/app/ValidatorList_test.cpp:618-640 | A key that resolves to a different master is that master's current, unrevoked signing key, and `getSigningKey` of the master returns it. |
| Manifests.RevokedStaysRevoked | src/test/app/ValidatorList_test.cpp:641-667 | A revoked master stays revoked whatever manifest is applied, and no manifest for it is accepted again. |
| Manifests.RevocationIsTerminal | src/test/app/ValidatorList_test.cpp:641-667 | For any sequence of manifests, a revoked master stays revoked and keeps its revocation manifest. |
| Manifests.SequencesNeverDecrease | src/test/app/ValidatorList_test.cpp:613-640 | Across any sequence of manifests, a stored master is never dropped and its stored sequence never decreases. |
| Manifests.OrderedManifests | src/test/app/ValidatorList_test.cpp:613-640 | Two valid manifests for one master with sequences 1 < 2 are both accepted in that order. Once the newer one is in, the older one is stale. |
| Manifests.ManifestCache.constructor | src/test/app/ValidatorList_test.cpp:213 | A new cache is empty and consistent. |
| Manifests.ManifestCache.ApplyManifest | src/test/app/ValidatorList_test.cpp:617-651 | Updating the two maps in place yields exactly the disposition and the cache contents that `CacheState.Apply` specifies, and keeps the cache consistent. |
| Manifests.ManifestCache.GetSigningKey | src/test/app/ValidatorList_test.cpp:617-651 | The result is a key the master delegates to exactly when the master holds an unrevoked manifest. Otherwise it is the master itself. |
| Manifests.ManifestCache.GetMasterKey | src/test/app/ValidatorList_test.cpp:617-640 | In a consistent cache, a key that resolves to a different master is that master's current, unrevoked signing key. A key outside the index resolves to itself. |
| Manifests.ManifestCache.IsRevoked | src/test/app/ValidatorList_test.cpp:641-651 | A master is revoked exactly when its stored manifest has the sequence `0xFFFFFFFF`, and then `getSigningKey` returns the master itself. |
| ValidatorLists.NodeIDs | src/test/app/ValidatorList_test.cpp:132-140 | A key's identifier is in the set of identifiers exactly when the key is in the key set. |
| ValidatorLists.NodeIDsCardinality | src/test/app/ValidatorList_test.cpp:880-945 | Distinct keys have distinct identifiers, so a set of keys and its identifiers have the same size. |
| ValidatorLists.TokenWithComment | src/test/app/ValidatorList_test.cpp:183-236 | A token made of leading whitespace, a non-empty alphanumeric identity, and then nothing or a comment that starts with whitespace yields that identity. This covers multi-word comments and trailing whitespace. |
| ValidatorLists.TokenWithGluedComment | src/test/app/ValidatorList_test.cpp:250-262 | A comment attached to the identity by a character that is neither whitespace nor alphanumeric (`"!"`) makes the token fail. |
| ValidatorLists.TokenIdentity | src/test/app/ValidatorList_test.cpp:183-262 | An accepted token yields a non-empty alphanumeric identity. The token is leading whitespace, then that identity, then nothing or a comment that starts with whitespace. |
| ValidatorLists.ParseStaticToken | src/test/app/ValidatorList_test.cpp:245-262 | A static-key token parses exactly to the key that the decoder gives for its identity. A malformed token parses to nothing. |
| ValidatorLists.ParsePublisherToken | src/test/app/ValidatorList_test.cpp:315-346 | A publisher token parses exactly when it is a non-empty hex key, and then to that key. |
| ValidatorLists.ParseAll | src/test/app/ValidatorList_test.cpp:256-262 | A batch of tokens parses exactly when every token parses, and then to their keys in order. |
| ValidatorLists.LoadedKeys | src/test/app/ValidatorList_test.cpp:208-299 | One load adds the configured keys and, when a local signing key is given, the master key the cache resolves it to (the key itself when it has no manifest). It adds nothing else. |
| ValidatorLists.AddPublishers | src/test/app/ValidatorList_test.cpp:316-369 | The configured publishers become every previously configured one plus each loaded key that the publisher cache does not hold as revoked. Existing records are kept, and new ones start without a list. |
| ValidatorLists.Members | src/test/app/ValidatorList_test.cpp:429-470 | A list's members are exactly the master keys its entries name. |
| ValidatorLists.EmbeddedManifests | src/test/app/ValidatorList_test.cpp:429-436 | The manifests a list carries are exactly those of its entries. |
| ValidatorLists.AcceptedList | src/test/app/ValidatorList_test.cpp:456-470 | The record kept for an accepted list is available and well formed. |
| ValidatorLists.CheckList | src/test/app/ValidatorList_test.cpp:414-520 | A list is unsupported exactly when its version is not 1. An accepted list has version 1, a configured publisher, a manifest that verifies and does not revoke, a signature by the signing key the publisher cache holds after that manifest, a body, an expiration after now and a sequence above the stored one, and it replaces that publisher's record. Any other outcome only removes records and keeps the rest unchanged; only an untrusted one can remove. The publisher cache has the list's manifest applied exactly when the version is 1 and the publisher is configured. |
| ValidatorLists.WrongSignerIsInvalid | src/test/app/ValidatorList_test.cpp:494-500 | A list from a configured publisher whose manifest is valid and does not revoke, but that is not signed by the publisher's current signing key once that manifest is applied, is invalid. It changes no record. |
| ValidatorLists.InvalidManifestUntrusted | src/test/app/ValidatorList_test.cpp:414-520 | A list whose publisher manifest does not verify is untrusted. It changes neither the records nor the publisher cache. |
| ValidatorLists.CheckListWellFormed | src/test/app/ValidatorList_test.cpp:414-520 | Whatever the disposition, every stored publisher record stays well formed. |
| ValidatorLists.ListedKeys | src/test/app/ValidatorList_test.cpp:429-470 | The listed keys are exactly the static keys plus the members of every stored list. |
| ValidatorLists.ApplyListed | src/test/app/ValidatorList_test.cpp:429-436 | Applying a list's embedded manifests, only for listed masters, keeps the validator cache consistent. |
| ValidatorLists.ApplyListedAppend | src/test/app/ValidatorList_test.cpp:429-436 | Applying two runs of manifests one after the other equals applying their concatenation. |
| ValidatorLists.ApplyListedAvoiding | src/test/app/ValidatorList_test.cpp:429-436 | Manifests for other masters and other signing keys leave a master's stored manifest alone. They also keep its signing key resolving to it, as long as no other master holds that key. |
| ValidatorLists.ApplyListedDelegates | src/test/app/ValidatorList_test.cpp:429-436 | A listed validator's manifest that verifies, does not revoke, is newer than the stored one and shares no master or signing key with the other manifests is in force afterwards. Its signing key resolves to its master, and `getSigningKey` of the master returns that key. |
| ValidatorLists.ApplyListedOnlyListed | src/test/app/ValidatorList_test.cpp:429-436 | An accepted list never changes the manifest of a validator that is not listed. |
| ValidatorLists.Expire | src/test/app/ValidatorList_test.cpp:729-811 | A list stays available exactly when it was available and its expiration is after now. It keeps its sequence and expiration, and an available list keeps its members. |
| ValidatorLists.ExpireLists | src/test/app/ValidatorList_test.cpp:729-811 | Every publisher's record is expired as of now, and no publisher is added or dropped. |
| ValidatorLists.ExpireListsIdempotent | src/test/app/ValidatorList_test.cpp:576-586 | Expiring twice at the same time changes nothing more. |
| ValidatorLists.PublishedMembers | src/test/app/ValidatorList_test.cpp:729-811 | A key is published exactly when some unrevoked publisher has an available list that names it. |
| ValidatorLists.Candidates | src/test/app/ValidatorList_test.cpp:537-586 | The candidates include every static key and every published member, and nothing else. |
| ValidatorLists.TrustedFrom | src/test/app/ValidatorList_test.cpp:653-667 | A candidate is trusted exactly when its master key is not revoked, and nothing else is trusted. |
| ValidatorLists.Changes | src/test/app/ValidatorList_test.cpp:559-586 | `added` is the identifiers of new minus old, and `removed` those of old minus new. Both are empty exactly when the trusted set did not change. |
| ValidatorLists.CeilFourFifths | src/test/app/ValidatorList_test.cpp:567-568 | The result is the least integer at least 0.8·K. |
| ValidatorLists.QuorumFor | src/test/app/ValidatorList_test.cpp:687-728 | The quorum is the `size_t` maximum when nothing is trusted. It is the configured minimum while fewer than ceil(0.8·K) validators were seen, counting the raw size of the seen set. Otherwise it is ceil(0.8·K). |
| ValidatorLists.ExpirationTimes | src/test/app/ValidatorList_test.cpp:961-1052 | The candidate times are the maximum time when static keys exist, plus the expiration of each publisher's last accepted list, and nothing else. |
| ValidatorLists.AuthenticDisposition | src/test/app/ValidatorList_test.cpp:414-500 | For an authentic submission, only the body decides. An older or expired list is stale, the stored sequence gives same sequence, and a higher one is accepted. Nothing but acceptance changes the stored lists. |
| ValidatorLists.ReapplyIsStale | src/test/app/ValidatorList_test.cpp:472-478 | Re-applying a manifest the cache has taken is stale and changes nothing. |
| ValidatorLists.AcceptedListRepeats | src/test/app/ValidatorList_test.cpp:476-478 | Re-submitting an accepted list before it expires gives same sequence. |
| ValidatorLists.OlderListIsStale | src/test/app/ValidatorList_test.cpp:472-474 | After a list is accepted, an authentic list of lower sequence is stale. |
| ValidatorLists.ExpiredListNotRecorded | src/test/app/ValidatorList_test.cpp:412-430 | An expired list is stale and records nothing, so the same sequence with a later expiration is accepted afterwards. |
| ValidatorLists.UnknownPublisherUntrusted | src/test/app/ValidatorList_test.cpp:437-444 | A list whose manifest names no configured publisher, or does not decode, is untrusted and changes nothing. |
| ValidatorLists.SupersededManifestInvalid | src/test/app/ValidatorList_test.cpp:479-500 | After the publisher rotates, a list that carries the older manifest and is signed with the older signing key is invalid and changes nothing. |
| ValidatorLists.RevocationDropsPublisher | src/test/app/ValidatorList_test.cpp:502-520 | A valid revocation of a configured publisher gives untrusted and revokes the publisher. The publisher is dropped with its list, and the other publishers are untouched. |
| ValidatorLists.AcceptedListReplacesMembers | src/test/app/ValidatorList_test.cpp:429-470 | After acceptance, the new list's members are listed. A key that only the publisher's previous list named is no longer listed. |
| ValidatorLists.AcceptedListDelegates | src/test/app/ValidatorList_test.cpp:429-436 | After a list is accepted, a manifest it carries for one of its own members, under the same conditions as `ApplyListedDelegates`, is in force in the validator cache. Its signing key resolves to that member, which is a listed key. |
| ValidatorLists.Recompute | src/test/app/ValidatorList_test.cpp:559-586 | The recomputed trusted set holds no revoked key. The static keys it leaves out are exactly the revoked ones. |
| ValidatorLists.PublishedMemberTrusted | src/test/app/ValidatorList_test.cpp:766-810 | A key is trusted after recomputation exactly when its master key is not revoked and it is a static key or a member of an unexpired, available list of an unrevoked publisher. |
| ValidatorLists.RecomputeIdempotent | src/test/app/ValidatorList_test.cpp:576-586 | Recomputing again at the same time gives the same set and reports no change. |
| ValidatorLists.AllExpiredMaxQuorum | src/test/app/ValidatorList_test.cpp:777-784 | With no static keys and every list expired, nothing is trusted and the quorum is the `size_t` maximum, whatever was seen. |
| ValidatorLists.AddedStaticKeyOnlyAddition | src/test/app/ValidatorList_test.cpp:812-841 | Loading one more unrevoked static key and recomputing adds exactly that key. It is the only addition and nothing is removed. |
| ValidatorLists.ExpiryKeepsExpirations | src/test/app/ValidatorList_test.cpp:1048-1052 | Expiring lists keeps every expiration and every unfetched publisher, so `expires` reports the same time after a recomputation that passes it. |
| ValidatorLists.SharedMembersCountedOnce | src/test/app/ValidatorList_test.cpp:880-945 | When several publishers name the same validators, each is trusted once, with one identifier per key. |
| TrustEngine.ParseTokens | src/test/app/ValidatorList_test.cpp:245-262 | Walking the tokens and stopping at the first failure gives exactly `ParseAll`. |
| TrustEngine.InsertPublishers | src/test/app/ValidatorList_test.cpp:316-369 | Inserting the publisher keys one by one gives exactly `AddPublishers`. |
| TrustEngine.ApplyListedManifests | src/test/app/ValidatorList_test.cpp:429-436 | Applying the list's manifests to the cache in place leaves exactly the state `ApplyListed` specifies. |
| TrustEngine.ExpireAll | src/test/app/ValidatorList_test.cpp:729-811 | Expiring the records one by one gives exactly `ExpireLists`. |
| TrustEngine.DropRevoked | src/test/app/ValidatorList_test.cpp:653-667 | Filtering the candidates one by one gives exactly `TrustedFrom`. |
| TrustEngine.Recalculate | src/test/app/ValidatorList_test.cpp:559-586 | Gives the expired lists, the trusted set and the change report as `ExpireLists`, `TrustedFrom` and `Changes` specify. Well-formed records stay well formed. |
| TrustEngine.EarliestExpiration | src/test/app/ValidatorList_test.cpp:961-1052 | The result is none exactly when some publisher has no accepted list or there is nothing to expire. Otherwise it is the least of the expiration times. |
| TrustEngine.ValidatorList.constructor | src/test/app/ValidatorList_test.cpp:143-159 | A new engine has no keys, publishers or trusted set, and its quorum is the configured minimum, or 1 without one. |
| TrustEngine.ValidatorList.Load | src/test/app/ValidatorList_test.cpp:163-370 | The call succeeds exactly when every static and publisher token parses. On success, the static keys grow by `LoadedKeys` and the publishers by `AddPublishers`, and a non-empty local key sets the node's own key to its master key. On failure nothing changes. The trusted set and the quorum are untouched. |
| TrustEngine.ValidatorList.ApplyList | src/test/app/ValidatorList_test.cpp:372-520 | The disposition, the publisher records and the publisher cache are those `CheckList` computes, in place. After acceptance the validator cache has the list's manifests applied for listed validators, so a carried manifest puts its signing key in force (`AcceptedListDelegates`, `Scenarios.ListedSigningKey`). Static keys, trusted set and quorum are untouched. |
| TrustEngine.ValidatorList.Listed | src/test/app/ValidatorList_test.cpp:429-470 | A key is listed exactly when the master key it resolves to is a static key or a member of a stored list. |
| TrustEngine.ValidatorList.Trusted | src/test/app/ValidatorList_test.cpp:605-667 | A trusted key that is no current signing key is trusted itself. In a consistent cache, a trusted key outside the trusted set is the current signing key of a trusted master. |
| TrustEngine.ValidatorList.TrustedPublisher | src/test/app/ValidatorList_test.cpp:325-370 | A publisher is trusted exactly when it is configured and its stored manifest does not carry the revocation sequence. |
| TrustEngine.ValidatorList.UpdateTrusted | src/test/app/ValidatorList_test.cpp:522-945 | The records are expired as of now. The trusted set becomes the unrevoked candidates, independently of the seen set. The changes are the difference from the previous trusted set. The quorum is `QuorumFor` of the trusted count and the number seen. Static keys and the local key are untouched. |
| TrustEngine.ValidatorList.Expires | src/test/app/ValidatorList_test.cpp:947-1052 | Nothing while a publisher has no accepted list or there is nothing to expire. Otherwise the earliest expiration, where static keys count as the maximum time. |
| Scenarios.GenesisQuorum | src/test/app/ValidatorList_test.cpp:143-159 | A fresh engine's quorum is 1, or the configured minimum. |
| Scenarios.LocalKeyListed | src/test/app/ValidatorList_test.cpp:208-227 | A loaded local signing key is listed at once. After its manifest arrives and it is loaded again, its master is the node's own key and both keys are listed. |
| Scenarios.StaticKeyNeverExpires | src/test/app/ValidatorList_test.cpp:961-975 | A fresh engine reports no expiry. With a static key loaded, it reports the maximum time, and the key is listed. |
| Scenarios.RevokedPublisherSkipped | src/test/app/ValidatorList_test.cpp:347-369 | A load naming a publisher that the cache holds as revoked succeeds. That publisher is not trusted and the other one is. |
| Scenarios.PublisherWithoutList | src/test/app/ValidatorList_test.cpp:668-686 | A publisher without a list yields no changes, a quorum of the `size_t` maximum and no expiry. |
| Scenarios.EngineTrustingStatic | src/test/app/ValidatorList_test.cpp:587-612 | Recomputing with one static key trusts it, reports it as added and sets the quorum to 1. |
| Scenarios.RotationKeepsTrust | src/test/app/ValidatorList_test.cpp:587-640 | Each rotation makes the new signing key listed and trusted at once. The replaced signing key is neither, and the master stays trusted. |
| Scenarios.RevocationRemovesTrust | src/test/app/ValidatorList_test.cpp:641-667 | A revoked master stays trusted until the next recomputation, which reports it removed and sets the quorum to the `size_t` maximum. It stays listed, and its last signing key is no longer listed. |
| Scenarios.OneList | src/test/app/ValidatorList_test.cpp:748-764 | The record of a first accepted list is available and names its two members. |
| Scenarios.FirstListAccepted | src/test/app/ValidatorList_test.cpp:746-764 | A configured publisher's first list, signed under its valid manifest, is accepted and recorded, and the publisher's manifest is stored. |
| Scenarios.OneListTrusted | src/test/app/ValidatorList_test.cpp:766-775 | Before its expiration, the list's two members are trusted and reported as added. |
| Scenarios.OneListExpired | src/test/app/ValidatorList_test.cpp:777-784 | At its expiration, the list holds nobody, nothing is trusted, and both members are reported removed. |
| Scenarios.RevokedStaticDropped | src/test/app/ValidatorList_test.cpp:653-660 | A revoked static key is dropped on recomputation and reported removed. |
| Scenarios.EngineTrustingList | src/test/app/ValidatorList_test.cpp:730-775 | After the list is accepted and the trusted set recomputed, both members are trusted, both are reported added, and the quorum is 2. |
| Scenarios.ListExpiry | src/test/app/ValidatorList_test.cpp:730-784 | Both members are trusted with quorum 2 until the list expires. Then both are removed and the quorum is the `size_t` maximum. |
| Scenarios.Entries | src/test/app/ValidatorList_test.cpp:100-119 | A list built from keys names exactly those keys and carries no manifests. |
| Scenarios.Signed | src/test/app/ValidatorList_test.cpp:100-127 | A submission built for the tests carries the given manifest, signer, sequence, expiration and members, at version 1. |
| Scenarios.Carrying | src/test/app/ValidatorList_test.cpp:100-127 | A submission whose one entry carries a validator manifest lists exactly that validator and embeds exactly that manifest. |
| Scenarios.CarriedManifestApplies | src/test/app/ValidatorList_test.cpp:424-436 | A first list carrying one validator's manifest is accepted. Applying that manifest to the shared cache makes the validator's signing key and master key both resolve to the listed master. |
| Scenarios.ListedSigningKey | src/test/app/ValidatorList_test.cpp:424-436 | After a list carrying a validator's manifest is accepted, both the validator's master key and its signing key are listed. |
| CurrencyCodes.AllowedIsTable | src/ripple/protocol/impl/UintTypes.cpp:12-16 | The character ranges used by the model are exactly the allowed-character table. |
| CurrencyCodes.ToString | src/ripple/protocol/impl/UintTypes.cpp:10-43 | The printed form is the system code, "1", the hex form, or the ISO text of a value that prints as ISO. |
| CurrencyCodes.IsoCurrency | src/ripple/protocol/impl/UintTypes.cpp:53-73 | A three-character code becomes 12 zero bytes, the three upper-cased characters and 5 zero bytes, with no character-set check. |
| CurrencyCodes.CurrencyFromCode | src/ripple/protocol/impl/UintTypes.cpp:45-79 | The empty code and the system code give zero. Any other three-character code gives the value with its upper-cased bytes at offset 12. A 40-character code gives what `SetHex` gives. For a length other than 40, the conversion succeeds exactly for the empty code and three-character codes, and gives a value whose other bytes are zero. |
| CurrencyCodes.ToCurrencyValue | src/ripple/protocol/impl/UintTypes.cpp:81-87 | For a length other than 40, the value overload yields `noCurrency` exactly when the code is neither empty nor three characters long. |
| CurrencyCodes.ToCurrency | src/ripple/protocol/impl/UintTypes.cpp:45-79 | Upper-casing into a buffer and appending the bytes succeeds exactly when `CurrencyFromCode` does. It stores that value, and on failure leaves the currency as it was. |
| CurrencyCodes.MaskedIsoBitsZero | src/ripple/protocol/impl/UintTypes.cpp:24-27 | Masking with `sIsoBits` gives zero exactly when every byte outside 12 to 14 is zero. |
| CurrencyCodes.ToStringForms | src/ripple/protocol/impl/UintTypes.cpp:10-43 | The output is the system code exactly for zero, and "1" exactly for `noCurrency`. A three-character output other than the system code occurs only for values that print as ISO, and such values print their ISO text. Every other value prints as hex. |
| CurrencyCodes.IsoPrintsAsIso | src/ripple/protocol/impl/UintTypes.cpp:27-39 | A value of ISO shape with allowed characters other than the system code is neither zero nor `noCurrency`, and prints as its code. |
| CurrencyCodes.BadCurrencyPrintsAsHex | src/ripple/protocol/impl/UintTypes.cpp:35-42 | `badCurrency()` carries "XRP" in its ISO bytes, so it prints as hex. |
| CurrencyCodes.LowerCaseSystemCodeIsBadCurrency | src/ripple/protocol/impl/UintTypes.cpp:47-73 | "XRP" reads as zero, but "xrp", which is compared before upper-casing, reads as `badCurrency()`. |
| CurrencyCodes.RoundTripFromCode | src/ripple/protocol/impl/UintTypes.cpp:27-72 | A three-character code whose upper-cased form is allowed and is not the system code prints back as that upper-cased form. |
| CurrencyCodes.IsoReadBack | src/ripple/protocol/impl/UintTypes.cpp:12-16 | Reading back a printed ISO code gives the value again exactly when the code has no lower-case letter. |
| CurrencyCodes.RoundTripFromValue | src/ripple/protocol/impl/UintTypes.cpp:10-87 | Given that hex printing gives 40 characters and hex parsing inverts it, reading back the printed form gives the value again. The exception is exactly a value that prints as an ISO code holding a lower-case letter. |

## Left out

- The engine's implementation sources are not part of this model. Wherever the tests leave an ordering open, the model fixes one. In `applyList`, an expired list is stale before a repeated sequence is recognised. In `applyManifest`, an invalid signature is reported before a stale sequence.
- `ManifestCache`'s `untrusted` disposition is not modelled. Nothing in the tested contract produces it.
- Cryptography is left out: key generation, signing and signature checks, and the hashing in `calcNodeID`. Keys are opaque byte strings. A manifest records whether its signatures verify, and a list submission names the key that signed it. A node identifier is modelled as the key itself, which makes `calcNodeID` injective.
- Manifest serialisation and the JSON/base64 list blob are left out. A submission is the decoded record, and a part that does not decode is absent (`None`).
- Base58, hex and base64 token decoding are left out. They are function parameters of `Load` (`decode`, `unhex`). Only the whitespace-and-comment rule of static tokens is modelled.
- The clock is a `now` parameter. The journal, the site URI and the test environment are left out.
- Any locking inside `ValidatorList` is left out. The model is sequential.
- The tests compute the quorum with float `std::ceil(k * 0.8f)`. The model uses the integer ceiling of 4k/5, which agrees for the sizes the tests use.
- `systemCurrencyCode()` is not part of this model. The constant "XRP" stands for it.
- `strHex` and `base_uint::SetHex` are not part of this model. They are parameters, and the round trips state what they assume of them.
- CurrencyCodes.CurrencyFromCode: a code is a byte string, one character per byte (`ByteString`). A character above 255 has no counterpart in the C++ `std::string`, and a multi-byte UTF-8 character counts as its separate bytes, so its length is the byte count.
- CurrencyCodes.ToCurrency: a 40-character code that `SetHex` rejects leaves the currency unchanged. What `SetHex` writes on failure is not modelled.
- The scenarios use two-key lists and single static keys in place of the tests' randomly sized key sets (20, 40 and 10 keys). The general properties are the lemmas of `ValidatorLists`.
- Scenarios.Entries: the lists the tests build embed each validator's manifest. The scenario lists carry none, so the scenarios do not replay the checks on listed signing keys.
