/**
 * `ValidatorList`: the object that holds the engine's configuration, the
 * lists received from publishers, the trusted set and the quorum, and whose
 * operations update them in place. Each operation is proved against the
 * value-level rules of module ValidatorLists.
 */
module TrustEngine {
  import opened Wrappers
  import opened Manifests
  import opened ValidatorLists

  /** Parses the configured tokens one by one, stopping at the first that fails. */
  method ParseTokens(tokens: seq<string>, parse: string -> Option<PublicKey>) returns (r: Option<seq<PublicKey>>)
    ensures r == ParseAll(tokens, parse)
  {
    var keys: seq<PublicKey> := [];
    for i := 0 to |tokens|
      invariant ParseAll(tokens[..i], parse) == Some(keys)
    {
      assert tokens[..i + 1][..i] == tokens[..i];
      var k := parse(tokens[i]);
      if k.None? {
        return None;
      }
      keys := keys + [k.value];
    }
    assert tokens[..|tokens|] == tokens;
    return Some(keys);
  }

  /** Records each publisher key in turn, skipping revoked and already configured ones. */
  method InsertPublishers(lists: map<PublicKey, PublisherList>, keys: seq<PublicKey>, publishers: CacheState)
    returns (r: map<PublicKey, PublisherList>)
    ensures r == AddPublishers(lists, keys, publishers)
  {
    r := lists;
    for i := 0 to |keys|
      invariant r == AddPublishers(lists, keys[..i], publishers)
    {
      assert keys[..i + 1][..i] == keys[..i];
      var p := keys[i];
      if !publishers.Revoked(p) && p !in r {
        r := r[p := Unfetched];
      }
    }
    assert keys[..|keys|] == keys;
  }

  /** Applies to `cache`, in order, the manifests whose master key is listed. */
  method ApplyListedManifests(cache: ManifestCache, ms: seq<Manifest>, listed: set<PublicKey>)
    requires cache.Valid()
    modifies cache
    ensures cache.Valid()
    ensures cache.State() == ApplyListed(old(cache.State()), ms, listed)
  {
    for i := 0 to |ms|
      invariant cache.Valid()
      invariant cache.State() == ApplyListed(old(cache.State()), ms[..i], listed)
    {
      assert ms[..i + 1][..i] == ms[..i];
      if ms[i].masterKey in listed {
        var _ := cache.ApplyManifest(ms[i]);
      }
    }
    assert ms[..|ms|] == ms;
  }

  /** Expires each publisher's list in turn. */
  method ExpireAll(lists: map<PublicKey, PublisherList>, now: nat) returns (r: map<PublicKey, PublisherList>)
    ensures r == ExpireLists(lists, now)
  {
    r := map[];
    var pending := lists.Keys;
    while pending != {}
      invariant pending <= lists.Keys
      invariant r.Keys == lists.Keys - pending
      invariant forall p :: p in r ==> r[p] == Expire(lists[p], now)
      decreases |pending|
    {
      var p :| p in pending;
      r := r[p := Expire(lists[p], now)];
      pending := pending - {p};
    }
  }

  /** Keeps each candidate in turn unless its master key is revoked. */
  method DropRevoked(candidates: set<PublicKey>, validators: CacheState) returns (trusted: set<PublicKey>)
    ensures trusted == TrustedFrom(candidates, validators)
  {
    trusted := {};
    var rest := candidates;
    while rest != {}
      invariant rest <= candidates
      invariant trusted == TrustedFrom(candidates - rest, validators)
      decreases |rest|
    {
      var k :| k in rest;
      if !validators.Revoked(k) {
        trusted := trusted + {k};
      }
      rest := rest - {k};
    }
  }

  /** Expires the lists, keeps the unrevoked candidates and reports the difference from `before`. */
  method Recalculate(before: set<PublicKey>, staticKeys: set<PublicKey>, lists: map<PublicKey, PublisherList>,
                     publishers: CacheState, validators: CacheState, now: nat)
    returns (expired: map<PublicKey, PublisherList>, trusted: set<PublicKey>, changes: TrustChanges)
    ensures expired == ExpireLists(lists, now)
    ensures AllWellFormed(lists) ==> AllWellFormed(expired)
    ensures trusted == TrustedFrom(Candidates(staticKeys, expired, publishers), validators)
    ensures changes == Changes(before, trusted)
  {
    expired := ExpireAll(lists, now);
    trusted := DropRevoked(Candidates(staticKeys, expired, publishers), validators);
    changes := Changes(before, trusted);
  }

  /**
   * Walks the publishers: nothing as soon as one has no accepted list,
   * otherwise the earliest expiration, where static keys count as never
   * expiring.
   */
  method EarliestExpiration(staticKeys: set<PublicKey>, lists: map<PublicKey, PublisherList>) returns (e: Option<nat>)
    ensures e.None? <==> SomeUnfetched(lists) || ExpirationTimes(staticKeys, lists) == {}
    ensures e.Some? ==> e.value in ExpirationTimes(staticKeys, lists)
    ensures e.Some? ==> forall t :: t in ExpirationTimes(staticKeys, lists) ==> e.value <= t
  {
    var earliest: Option<nat> := if staticKeys != {} then Some(MaxTime) else None;
    var pending := lists.Keys;
    while pending != {}
      invariant pending <= lists.Keys
      invariant forall p :: p in lists && p !in pending ==> lists[p].expiration.Some?
      invariant earliest.None? <==> staticKeys == {} && pending == lists.Keys
      invariant earliest.Some? ==> earliest.value in ExpirationTimes(staticKeys, lists)
      invariant earliest.Some? && staticKeys != {} ==> earliest.value <= MaxTime
      invariant earliest.Some? ==> forall p :: p in lists && p !in pending ==> earliest.value <= lists[p].expiration.value
      decreases |pending|
    {
      var p :| p in pending;
      var expiration := lists[p].expiration;
      if expiration.None? {
        return None;
      }
      if earliest.None? || expiration.value < earliest.value {
        earliest := expiration;
      }
      pending := pending - {p};
    }
    return earliest;
  }

  class ValidatorList {
    /** The manifest cache of validators. */
    const validatorManifests: ManifestCache
    /** The manifest cache of publishers; it may be the same object as `validatorManifests`. */
    const publisherManifests: ManifestCache
    /** The configured minimum quorum, if any. */
    const minimumQuorum: Option<nat>

    /** The node's own master key, once a local signing key has been loaded. */
    var localPubKey: Option<PublicKey>
    /** Keys trusted by local configuration. */
    var staticKeys: set<PublicKey>
    /** The configured publishers and what is kept of their lists. */
    var publisherLists: map<PublicKey, PublisherList>
    /** The trusted set computed by the last `UpdateTrusted`. */
    var trustedKeys: set<PublicKey>
    /** The current quorum. */
    var quorum: nat

    /** Whether `UpdateTrusted` has run, and how many validators it was told were seen. */
    ghost var recomputed: bool
    ghost var seenCount: nat

    /**
     * Both caches are valid, every publisher record is well formed, and the
     * quorum is the one computed for the trusted set, or the configured
     * minimum (1 by default) before the first computation.
     */
    ghost predicate Valid()
      reads this, validatorManifests, publisherManifests
    {
      validatorManifests.Valid() && publisherManifests.Valid() &&
      AllWellFormed(publisherLists) &&
      (if recomputed then quorum == QuorumFor(|trustedKeys|, seenCount, minimumQuorum)
       else quorum == minimumQuorum.GetOr(1) && trustedKeys == {})
    }

    constructor(validatorManifests: ManifestCache, publisherManifests: ManifestCache, minimumQuorum: Option<nat>)
      requires validatorManifests.Valid() && publisherManifests.Valid()
      ensures Valid()
      ensures this.validatorManifests == validatorManifests && this.publisherManifests == publisherManifests
      ensures this.minimumQuorum == minimumQuorum
      ensures localPubKey == None && staticKeys == {} && publisherLists == map[] && trustedKeys == {}
      ensures quorum == minimumQuorum.GetOr(1)
    {
      this.validatorManifests := validatorManifests;
      this.publisherManifests := publisherManifests;
      this.minimumQuorum := minimumQuorum;
      localPubKey := None;
      staticKeys := {};
      publisherLists := map[];
      trustedKeys := {};
      quorum := minimumQuorum.GetOr(1);
      recomputed := false;
      seenCount := 0;
    }

    // -------------------------------------------------------------------
    // Queries

    /** `listed`: the key, or the master key it signs for, is a static key or on some stored list. */
    predicate Listed(k: PublicKey)
      reads this, validatorManifests
      ensures Listed(k) <==>
                validatorManifests.GetMasterKey(k) in staticKeys ||
                exists p :: p in publisherLists && validatorManifests.GetMasterKey(k) in publisherLists[p].members
    {
      validatorManifests.GetMasterKey(k) in ListedKeys(staticKeys, publisherLists)
    }

    /** `trusted`: the key, or the master key it signs for, is in the trusted set. */
    predicate Trusted(k: PublicKey)
      reads this, validatorManifests
      ensures k in trustedKeys && k !in validatorManifests.signingToMaster ==> Trusted(k)
      ensures validatorManifests.Valid() && Trusted(k) && k !in trustedKeys ==>
                exists master :: master in trustedKeys && validatorManifests.State().Delegates(master, k)
    {
      validatorManifests.GetMasterKey(k) in trustedKeys
    }

    /** `trustedPublisher`: a configured publisher whose master key is not revoked. */
    predicate TrustedPublisher(k: PublicKey)
      reads this, publisherManifests
      ensures TrustedPublisher(k) <==>
                k in publisherLists &&
                !(k in publisherManifests.manifests && publisherManifests.manifests[k].sequence == RevokedSequence)
    {
      k in publisherLists && !publisherManifests.IsRevoked(k)
    }

    // -------------------------------------------------------------------
    // Operations

    /**
     * `load`: reads the configured validator and publisher keys. Nothing is
     * kept unless every token parses. Then a non-empty local signing key
     * makes its master key the node's own and a static key, the configured
     * keys become static keys, and each configured publisher not known to be
     * revoked is recorded without a list.
     */
    method Load(localSigningKey: PublicKey, configKeys: seq<string>, publisherKeys: seq<string>,
                decode: string -> Option<PublicKey>, unhex: string -> Option<PublicKey>)
      returns (ok: bool)
      requires Valid()
      modifies this
      ensures Valid()
      ensures ok <==> ParseAll(configKeys, StaticParser(decode)).Some? &&
                      ParseAll(publisherKeys, PublisherParser(unhex)).Some?
      ensures ok ==> staticKeys == old(staticKeys) +
                        LoadedKeys(localSigningKey, ParseAll(configKeys, StaticParser(decode)).value,
                                   validatorManifests.State())
      ensures ok ==> publisherLists == AddPublishers(old(publisherLists),
                        ParseAll(publisherKeys, PublisherParser(unhex)).value, publisherManifests.State())
      ensures ok && |localSigningKey| > 0 ==> localPubKey == Some(validatorManifests.GetMasterKey(localSigningKey))
      ensures !(ok && |localSigningKey| > 0) ==> localPubKey == old(localPubKey)
      ensures !ok ==> staticKeys == old(staticKeys) && publisherLists == old(publisherLists)
      ensures trustedKeys == old(trustedKeys) && quorum == old(quorum)
      ensures recomputed == old(recomputed) && seenCount == old(seenCount)
    {
      var parsedKeys := ParseTokens(configKeys, StaticParser(decode));
      var parsedPublishers := ParseTokens(publisherKeys, PublisherParser(unhex));
      if parsedKeys.None? || parsedPublishers.None? {
        return false;
      }
      var keys := parsedKeys.value;
      var publishers := parsedPublishers.value;

      if |localSigningKey| > 0 {
        localPubKey := Some(validatorManifests.GetMasterKey(localSigningKey));
      }
      staticKeys := staticKeys + LoadedKeys(localSigningKey, keys, validatorManifests.State());

      publisherLists := InsertPublishers(publisherLists, publishers, publisherManifests.State());
      return true;
    }

    /**
     * `applyList`: runs the checks of `CheckList`, updating the publisher
     * cache with the list's manifest; an accepted list replaces the
     * publisher's previous one, and then the manifests it carries for listed
     * validators are applied, in order, to the validator cache.
     */
    method ApplyList(s: ListSubmission, now: nat) returns (d: ListDisposition)
      requires Valid()
      modifies this, validatorManifests, publisherManifests
      ensures Valid()
      ensures var o := CheckList(s, old(publisherLists), old(publisherManifests.State()), now);
              d == o.disposition && publisherLists == o.lists &&
              (validatorManifests != publisherManifests ==> publisherManifests.State() == o.publishers)
      ensures var o := CheckList(s, old(publisherLists), old(publisherManifests.State()), now);
              var base := if validatorManifests == publisherManifests then o.publishers else old(validatorManifests.State());
              validatorManifests.State() ==
                if d == ListDisposition.Accepted
                then ApplyListed(base, EmbeddedManifests(s.body.value.validators), ListedKeys(staticKeys, publisherLists))
                else base
      ensures staticKeys == old(staticKeys) && localPubKey == old(localPubKey)
      ensures trustedKeys == old(trustedKeys) && quorum == old(quorum)
      ensures recomputed == old(recomputed) && seenCount == old(seenCount)
    {
      if s.version != RequiredListVersion {
        return UnsupportedVersion;
      }
      if s.manifest.None? || s.manifest.value.masterKey !in publisherLists {
        return Untrusted;
      }
      var m := s.manifest.value;
      var master := m.masterKey;
      var result := publisherManifests.ApplyManifest(m);
      if m.Revoked() {
        if result == ManifestDisposition.Accepted {
          publisherLists := publisherLists - {master};
        }
        return Untrusted;
      }
      if result == ManifestDisposition.Invalid {
        return Untrusted;
      }
      if s.signer != Some(publisherManifests.GetSigningKey(master)) {
        return ListDisposition.Invalid;
      }
      if s.body.None? {
        return ListDisposition.Invalid;
      }
      var b := s.body.value;
      var previous := publisherLists[master];
      if b.sequence < previous.sequence || b.expiration <= now {
        return ListDisposition.Stale;
      }
      if b.sequence == previous.sequence {
        return SameSequence;
      }
      publisherLists := publisherLists[master := AcceptedList(b)];

      var embedded := EmbeddedManifests(b.validators);
      var listed := ListedKeys(staticKeys, publisherLists);
      ApplyListedManifests(validatorManifests, embedded, listed);
      return ListDisposition.Accepted;
    }

    /**
     * `updateTrusted`: expires the lists whose time has passed, recomputes
     * the trusted set from the static keys and the current lists of
     * unrevoked publishers, leaving out revoked validators, reports what was
     * added and removed, and sets the quorum for the number of validators
     * seen.
     */
    method UpdateTrusted(seen: set<NodeID>, now: nat) returns (changes: TrustChanges)
      requires Valid()
      modifies this
      ensures Valid()
      ensures publisherLists == ExpireLists(old(publisherLists), now)
      ensures trustedKeys == TrustedFrom(Candidates(staticKeys, publisherLists, publisherManifests.State()),
                                         validatorManifests.State())
      ensures changes == Changes(old(trustedKeys), trustedKeys)
      ensures quorum == QuorumFor(|trustedKeys|, |seen|, minimumQuorum)
      ensures staticKeys == old(staticKeys) && localPubKey == old(localPubKey)
    {
      var lists, trusted;
      lists, trusted, changes := Recalculate(trustedKeys, staticKeys, publisherLists,
                                             publisherManifests.State(), validatorManifests.State(), now);
      publisherLists, trustedKeys, quorum := lists, trusted, QuorumFor(|trusted|, |seen|, minimumQuorum);
      recomputed, seenCount := true, |seen|;
    }

    /**
     * `expires`: nothing while some configured publisher has had no list
     * accepted, or when there is nothing to expire; otherwise the earliest
     * expiration, where static keys never expire.
     */
    method Expires() returns (e: Option<nat>)
      ensures e.None? <==> SomeUnfetched(publisherLists) || ExpirationTimes(staticKeys, publisherLists) == {}
      ensures e.Some? ==> e.value in ExpirationTimes(staticKeys, publisherLists)
      ensures e.Some? ==> forall t :: t in ExpirationTimes(staticKeys, publisherLists) ==> e.value <= t
    {
      e := EarliestExpiration(staticKeys, publisherLists);
    }
  }
}
