/**
 * The engine's documented behaviour replayed: each
 * method builds fresh caches and a fresh `ValidatorList`, drives them the
 * way the unit tests of the validator list do, and states what the tests
 * expect of the results.
 *
 * Keys, manifests and lists are parameters, constrained only as far as the
 * tests' randomly generated ones are (distinct keys, valid signatures);
 * configuration tokens are given together with what they parse to.
 */
module Scenarios {
  import opened Wrappers
  import opened Manifests
  import opened ValidatorLists
  import opened TrustEngine

  /** The default quorum is 1; a configured minimum quorum is the quorum before any recomputation. */
  method GenesisQuorum() returns (defaultQuorum: nat, configuredQuorum: nat)
    ensures defaultQuorum == 1
    ensures configuredQuorum == 0
  {
    var manifests := new ManifestCache();
    var engine := new ValidatorList(manifests, manifests, None);
    defaultQuorum := engine.quorum;
    var configured := new ValidatorList(manifests, manifests, Some(0));
    configuredQuorum := configured.quorum;
  }

  /**
   * A local signing key is listed as soon as it is loaded; once its manifest
   * is in the cache, loading it again makes the master key the node's own,
   * and both keys are listed.
   */
  method LocalKeyListed(m: Manifest, decode: string -> Option<PublicKey>, unhex: string -> Option<PublicKey>)
    returns (signingListedAlone: bool, local: Option<PublicKey>, masterListed: bool, signingListed: bool)
    requires m.Verify() && !m.Revoked() && |m.signingKey| > 0
    ensures signingListedAlone && masterListed && signingListed
    ensures local == Some(m.masterKey)
  {
    var manifests := new ManifestCache();
    var engine := new ValidatorList(manifests, manifests, None);
    var ok := engine.Load(m.signingKey, [], [], decode, unhex);
    signingListedAlone := engine.Listed(m.signingKey);

    var _ := manifests.ApplyManifest(m);
    RotationResolves(EmptyCache, m);
    ok := engine.Load(m.signingKey, [], [], decode, unhex);
    local := engine.localPubKey;
    masterListed := engine.Listed(m.masterKey);
    signingListed := engine.Listed(m.signingKey);
  }

  /** Static keys never expire: with one loaded, `expires` reports the largest time; before, nothing. */
  method StaticKeyNeverExpires(k: PublicKey, tokens: seq<string>, decode: string -> Option<PublicKey>,
                               unhex: string -> Option<PublicKey>)
    returns (before: Option<nat>, after: Option<nat>, listed: bool)
    requires ParseAll(tokens, StaticParser(decode)) == Some([k])
    ensures before == None
    ensures after == Some(MaxTime) && listed
  {
    var manifests := new ManifestCache();
    var empty := new ValidatorList(manifests, manifests, None);
    before := empty.Expires();
    var engine := EngineWithStatic(k, tokens, decode, unhex);
    assert ExpirationTimes({k}, map[]) == {MaxTime};
    after := engine.Expires();
    listed := engine.Listed(k);
  }

  /**
   * A publisher whose master key the publisher cache holds as revoked is not
   * trusted after loading, while another publisher loaded alongside is.
   */
  method RevokedPublisherSkipped(revocation: Manifest, legit: PublicKey, tokens: seq<string>,
                                 decode: string -> Option<PublicKey>, unhex: string -> Option<PublicKey>)
    returns (ok: bool, revokedTrusted: bool, legitTrusted: bool)
    requires revocation.Revoked() && revocation.Verify() && legit != revocation.masterKey
    requires ParseAll(tokens, PublisherParser(unhex)) == Some([revocation.masterKey, legit])
    ensures ok && !revokedTrusted && legitTrusted
  {
    var validatorManifests := new ManifestCache();
    var publisherManifests := new ManifestCache();
    var _ := publisherManifests.ApplyManifest(revocation);
    var engine := new ValidatorList(validatorManifests, publisherManifests, None);
    ok := engine.Load([], [], tokens, decode, unhex);
    revokedTrusted := engine.TrustedPublisher(revocation.masterKey);
    legitTrusted := engine.TrustedPublisher(legit);
  }

  /** A fresh engine over one fresh cache, with publisher `p` configured and nothing else. */
  method EngineWithPublisher(p: PublicKey, tokens: seq<string>, decode: string -> Option<PublicKey>,
                             unhex: string -> Option<PublicKey>)
    returns (engine: ValidatorList)
    requires ParseAll(tokens, PublisherParser(unhex)) == Some([p])
    ensures fresh(engine) && fresh(engine.validatorManifests) && engine.Valid()
    ensures engine.validatorManifests == engine.publisherManifests
    ensures engine.validatorManifests.State() == EmptyCache
    ensures engine.publisherLists == map[p := Unfetched] && engine.staticKeys == {} && engine.trustedKeys == {}
    ensures engine.minimumQuorum == None
  {
    var manifests := new ManifestCache();
    engine := new ValidatorList(manifests, manifests, None);
    var ok := engine.Load([], [], tokens, decode, unhex);
  }

  /** A configured publisher with no list yet trusts nobody: the quorum is the sentinel. */
  method PublisherWithoutList(p: PublicKey, tokens: seq<string>, seen: set<NodeID>,
                              decode: string -> Option<PublicKey>, unhex: string -> Option<PublicKey>)
    returns (changes: TrustChanges, quorum: nat, expires: Option<nat>)
    requires ParseAll(tokens, PublisherParser(unhex)) == Some([p])
    ensures changes == TrustChanges({}, {})
    ensures quorum == MaxQuorum
    ensures expires == None
  {
    var engine := EngineWithPublisher(p, tokens, decode, unhex);
    changes := engine.UpdateTrusted(seen, 0);
    assert PublishedMembers(engine.publisherLists, engine.publisherManifests.State()) == {};
    assert NodeIDs({}) == {};
    quorum := engine.quorum;
    expires := engine.Expires();
  }

  /** A fresh engine over one fresh cache, with the static key `master` loaded. */
  method EngineWithStatic(master: PublicKey, tokens: seq<string>,
                          decode: string -> Option<PublicKey>, unhex: string -> Option<PublicKey>)
    returns (engine: ValidatorList)
    requires ParseAll(tokens, StaticParser(decode)) == Some([master])
    ensures fresh(engine) && fresh(engine.validatorManifests) && engine.Valid()
    ensures engine.validatorManifests == engine.publisherManifests
    ensures engine.validatorManifests.State() == EmptyCache
    ensures engine.publisherLists == map[] && engine.staticKeys == {master} && engine.trustedKeys == {}
    ensures engine.minimumQuorum == None
  {
    var manifests := new ManifestCache();
    engine := new ValidatorList(manifests, manifests, None);
    var ok := engine.Load([], tokens, [], decode, unhex);
    assert engine.staticKeys == {master};
  }

  /** The same engine once the trusted set has been computed: `master` is trusted. */
  method EngineTrustingStatic(master: PublicKey, tokens: seq<string>, seen: set<NodeID>,
                              decode: string -> Option<PublicKey>, unhex: string -> Option<PublicKey>)
    returns (engine: ValidatorList, changes: TrustChanges)
    requires ParseAll(tokens, StaticParser(decode)) == Some([master])
    ensures fresh(engine) && fresh(engine.validatorManifests) && engine.Valid()
    ensures engine.validatorManifests == engine.publisherManifests
    ensures engine.validatorManifests.State() == EmptyCache
    ensures engine.publisherLists == map[] && engine.staticKeys == {master} && engine.trustedKeys == {master}
    ensures changes == TrustChanges({CalcNodeID(master)}, {})
    ensures engine.minimumQuorum == None && engine.quorum == 1
  {
    engine := EngineWithStatic(master, tokens, decode, unhex);
    changes := engine.UpdateTrusted(seen, 0);
    assert PublishedMembers(map[], engine.publisherManifests.State()) == {};
    assert NodeIDs({master}) == {CalcNodeID(master)};
  }

  /**
   * A trusted static key stays trusted through key rotation: each accepted
   * manifest makes its signing key listed and trusted, and the signing key
   * it replaces is neither any longer.
   */
  method RotationKeepsTrust(master: PublicKey, m1: Manifest, m2: Manifest, tokens: seq<string>, seen: set<NodeID>,
                            decode: string -> Option<PublicKey>, unhex: string -> Option<PublicKey>)
    returns (added: set<NodeID>, signing1ListedBefore: bool,
             signing1Listed: bool, signing1Trusted: bool,
             signing2Listed: bool, signing2Trusted: bool, masterTrusted: bool,
             signing1ListedAfter: bool, signing1TrustedAfter: bool)
    requires ParseAll(tokens, StaticParser(decode)) == Some([master])
    requires m1.masterKey == master && m2.masterKey == master
    requires m1.Verify() && m2.Verify() && !m1.Revoked() && !m2.Revoked() && m1.sequence < m2.sequence
    requires m1.signingKey != master && m2.signingKey != master && m1.signingKey != m2.signingKey
    ensures added == {CalcNodeID(master)} && !signing1ListedBefore
    ensures signing1Listed && signing1Trusted
    ensures signing2Listed && signing2Trusted && masterTrusted
    ensures !signing1ListedAfter && !signing1TrustedAfter
  {
    var engine, changes := EngineTrustingStatic(master, tokens, seen, decode, unhex);
    added := changes.added;
    var manifests := engine.validatorManifests;
    signing1ListedBefore := engine.Listed(m1.signingKey);

    ghost var before := manifests.State();
    var _ := manifests.ApplyManifest(m1);
    RotationResolves(before, m1);
    signing1Listed := engine.Listed(m1.signingKey);
    signing1Trusted := engine.Trusted(m1.signingKey);

    before := manifests.State();
    var _ := manifests.ApplyManifest(m2);
    RotationResolves(before, m2);
    signing2Listed := engine.Listed(m2.signingKey);
    signing2Trusted := engine.Trusted(m2.signingKey);
    masterTrusted := engine.Trusted(master);
    signing1ListedAfter := engine.Listed(m1.signingKey);
    signing1TrustedAfter := engine.Trusted(m1.signingKey);
  }

  /** A revoked static key is no longer trusted once the trusted set is recomputed, and is reported as removed. */
  lemma RevokedStaticDropped(master: PublicKey, c: CacheState)
    requires c.Revoked(master)
    ensures TrustedFrom(Candidates({master}, map[], c), c) == {}
    ensures Changes({master}, {}) == TrustChanges({}, {CalcNodeID(master)})
  {
    assert PublishedMembers(map[], c) == {};
    assert NodeIDs({master}) == {CalcNodeID(master)};
  }

  /**
   * A revoked master key stays trusted until the next recomputation, which
   * removes it; it is still listed, and its last signing key no longer
   * stands for it.
   */
  method RevocationRemovesTrust(master: PublicKey, m: Manifest, revocation: Manifest, tokens: seq<string>,
                                seen: set<NodeID>, decode: string -> Option<PublicKey>, unhex: string -> Option<PublicKey>)
    returns (trustedUntilRecomputed: bool, changes: TrustChanges, quorum: nat,
             masterListed: bool, masterTrusted: bool, signingListed: bool)
    requires ParseAll(tokens, StaticParser(decode)) == Some([master])
    requires m.masterKey == master && revocation.masterKey == master
    requires m.Verify() && !m.Revoked() && m.signingKey != master
    requires revocation.Verify() && revocation.Revoked()
    ensures trustedUntilRecomputed
    ensures changes == TrustChanges({}, {CalcNodeID(master)})
    ensures quorum == MaxQuorum
    ensures masterListed && !masterTrusted && !signingListed
  {
    var engine, _ := EngineTrustingStatic(master, tokens, seen, decode, unhex);
    var manifests := engine.validatorManifests;
    var _ := manifests.ApplyManifest(m);
    ghost var before := manifests.State();
    var _ := manifests.ApplyManifest(revocation);
    RevocationResolves(before, revocation);
    trustedUntilRecomputed := engine.Trusted(master);

    RevokedStaticDropped(master, manifests.State());
    changes := engine.UpdateTrusted(seen, 0);
    quorum := engine.quorum;
    masterListed := engine.Listed(master);
    masterTrusted := engine.Trusted(master);
    signingListed := engine.Listed(m.signingKey);
  }

  /** A list naming `keys`, carrying no validator manifests. */
  function Entries(keys: seq<PublicKey>): (vs: seq<ListedValidator>)
    ensures Members(ListBody(0, 0, vs)) == set k | k in keys
    ensures EmbeddedManifests(vs) == []
  {
    var vs := seq(|keys|, i requires 0 <= i < |keys| => ListedValidator(Some(keys[i]), None));
    NoManifests(vs);
    assert forall k :: k in keys ==> exists v :: v in vs && v.masterKey == Some(k) by {
      forall k | k in keys ensures exists v :: v in vs && v.masterKey == Some(k) {
        var i :| 0 <= i < |keys| && keys[i] == k;
        assert vs[i].masterKey == Some(k);
      }
    }
    vs
  }

  lemma {:induction false} NoManifests(vs: seq<ListedValidator>)
    requires forall i :: 0 <= i < |vs| ==> vs[i].manifest.None?
    ensures EmbeddedManifests(vs) == []
  {
    if vs != [] {
      NoManifests(vs[..|vs| - 1]);
    }
  }

  /** The list the publisher with manifest `m` signs with its current key: version 1, `keys` as members. */
  function Signed(m: Manifest, sequence: nat, expiration: nat, keys: seq<PublicKey>): (s: ListSubmission)
    ensures s.manifest == Some(m) && s.signer == Some(m.signingKey) && s.version == RequiredListVersion
    ensures s.body.Some? && s.body.value.sequence == sequence && s.body.value.expiration == expiration
    ensures Members(s.body.value) == set k | k in keys
    ensures EmbeddedManifests(s.body.value.validators) == []
  {
    var vs := Entries(keys);
    assert Members(ListBody(sequence, expiration, vs)) == Members(ListBody(0, 0, vs));
    ListSubmission(Some(m), Some(m.signingKey), Some(ListBody(sequence, expiration, vs)), RequiredListVersion)
  }

  /** The list of `EngineWithList`. */
  function OneList(p: PublicKey, a: PublicKey, b: PublicKey, expiration: nat): (lists: map<PublicKey, PublisherList>)
    ensures lists.Keys == {p} && lists[p].available && lists[p].members == {a, b}
  {
    map[p := PublisherList(true, 1, Some(expiration), {a, b})]
  }

  /** A configured publisher's first list, signed under its valid manifest, is accepted. */
  lemma FirstListAccepted(p: PublicKey, m: Manifest, a: PublicKey, b: PublicKey, expiration: nat)
    requires m.masterKey == p && m.Verify() && !m.Revoked() && 0 < expiration
    ensures var o := CheckList(Signed(m, 1, expiration, [a, b]), map[p := Unfetched], EmptyCache, 0);
            o.disposition == ListDisposition.Accepted && o.lists == OneList(p, a, b, expiration) &&
            o.publishers.manifests == map[p := m]
  {
    assert (set k | k in [a, b]) == {a, b};
  }

  /** A fresh engine with publisher `p` configured, once `p`'s first list, naming `a` and `b`, is accepted. */
  method EngineWithList(p: PublicKey, m: Manifest, a: PublicKey, b: PublicKey, expiration: nat, tokens: seq<string>,
                        decode: string -> Option<PublicKey>, unhex: string -> Option<PublicKey>)
    returns (engine: ValidatorList, d: ListDisposition)
    requires ParseAll(tokens, PublisherParser(unhex)) == Some([p])
    requires m.masterKey == p && m.Verify() && !m.Revoked() && 0 < expiration
    ensures fresh(engine) && fresh(engine.validatorManifests) && engine.Valid()
    ensures engine.validatorManifests == engine.publisherManifests
    ensures engine.publisherLists == OneList(p, a, b, expiration)
    ensures engine.staticKeys == {} && engine.trustedKeys == {} && engine.minimumQuorum == None
    ensures engine.validatorManifests.State().manifests == map[p := m]
    ensures d == ListDisposition.Accepted
  {
    engine := EngineWithPublisher(p, tokens, decode, unhex);
    FirstListAccepted(p, m, a, b, expiration);
    d := engine.ApplyList(Signed(m, 1, expiration, [a, b]), 0);
  }

  /** Before it expires, the one list's members are trusted, and both are reported as added. */
  lemma OneListTrusted(p: PublicKey, m: Manifest, a: PublicKey, b: PublicKey, expiration: nat, now: nat,
                       c: CacheState)
    requires c.manifests == map[p := m] && !m.Revoked() && now < expiration
    ensures ExpireLists(OneList(p, a, b, expiration), now) == OneList(p, a, b, expiration)
    ensures TrustedFrom(Candidates({}, OneList(p, a, b, expiration), c), c) == {a, b}
    ensures Changes({}, {a, b}) == TrustChanges({CalcNodeID(a), CalcNodeID(b)}, {})
  {
    var lists := OneList(p, a, b, expiration);
    assert !c.Revoked(p);
    assert PublishedMembers(lists, c) == {a, b};
    assert NodeIDs({a, b}) == {CalcNodeID(a), CalcNodeID(b)};
  }

  /** Once it expires, the one list holds nobody, nothing is trusted, and both members are reported as removed. */
  lemma OneListExpired(p: PublicKey, a: PublicKey, b: PublicKey, expiration: nat, c: CacheState)
    ensures ExpireLists(OneList(p, a, b, expiration), expiration) == map[p := PublisherList(false, 1, Some(expiration), {})]
    ensures TrustedFrom(Candidates({}, map[p := PublisherList(false, 1, Some(expiration), {})], c), c) == {}
    ensures Changes({a, b}, {}) == TrustChanges({}, {CalcNodeID(a), CalcNodeID(b)})
  {
    assert PublishedMembers(map[p := PublisherList(false, 1, Some(expiration), {})], c) == {};
    assert NodeIDs({a, b}) == {CalcNodeID(a), CalcNodeID(b)};
  }

  /** A first list from the publisher with manifest `m` whose one entry carries the validator manifest `v`. */
  function Carrying(m: Manifest, expiration: nat, v: Manifest): (s: ListSubmission)
    ensures s.manifest == Some(m) && s.signer == Some(m.signingKey) && s.version == RequiredListVersion
    ensures s.body.Some? && s.body.value.sequence == 1 && s.body.value.expiration == expiration
    ensures Members(s.body.value) == {v.masterKey}
    ensures EmbeddedManifests(s.body.value.validators) == [v]
  {
    var entry := ListedValidator(Some(v.masterKey), Some(v));
    assert EmbeddedManifests([entry]) == EmbeddedManifests([]) + [v];
    ListSubmission(Some(m), Some(m.signingKey), Some(ListBody(1, expiration, [entry])), RequiredListVersion)
  }

  /**
   * The list of `Carrying` is accepted, and applying its manifest to the
   * shared cache makes the validator's signing key resolve to its listed master.
   */
  lemma CarriedManifestApplies(p: PublicKey, m: Manifest, v: Manifest, expiration: nat)
    requires m.masterKey == p && m.Verify() && !m.Revoked() && 0 < expiration
    requires v.masterKey != p && v.Verify() && !v.Revoked() && v.signingKey != m.signingKey
    requires v.masterKey != m.signingKey
    ensures var o := CheckList(Carrying(m, expiration, v), map[p := Unfetched], EmptyCache, 0);
            var r := ApplyListed(o.publishers, [v], ListedKeys({}, o.lists));
            o.disposition == ListDisposition.Accepted &&
            r.MasterKey(v.signingKey) == v.masterKey && r.MasterKey(v.masterKey) == v.masterKey &&
            v.masterKey in ListedKeys({}, o.lists) && r.SigningKey(v.masterKey) == v.signingKey
  {
    var s := Carrying(m, expiration, v);
    var o := CheckList(s, map[p := Unfetched], EmptyCache, 0);
    assert o.publishers.manifests == map[p := m];
    AcceptedListDelegates(s, {}, map[p := Unfetched], EmptyCache, o.publishers, 0, 0);
  }

  /**
   * An accepted list carrying a validator's manifest lists both the
   * validator's master key and its current signing key.
   */
  method ListedSigningKey(p: PublicKey, m: Manifest, v: Manifest, expiration: nat, tokens: seq<string>,
                          decode: string -> Option<PublicKey>, unhex: string -> Option<PublicKey>)
    returns (d: ListDisposition, masterListed: bool, signingListed: bool)
    requires ParseAll(tokens, PublisherParser(unhex)) == Some([p])
    requires m.masterKey == p && m.Verify() && !m.Revoked() && 0 < expiration
    requires v.masterKey != p && v.Verify() && !v.Revoked() && v.signingKey != m.signingKey
    requires v.masterKey != m.signingKey
    ensures d == ListDisposition.Accepted && masterListed && signingListed
  {
    var engine := EngineWithPublisher(p, tokens, decode, unhex);
    CarriedManifestApplies(p, m, v, expiration);
    d := engine.ApplyList(Carrying(m, expiration, v), 0);
    masterListed := engine.Listed(v.masterKey);
    signingListed := engine.Listed(v.signingKey);
  }

  /** The engine of `EngineWithList` once the trusted set has been computed before the list expires. */
  method EngineTrustingList(p: PublicKey, m: Manifest, a: PublicKey, b: PublicKey, expiration: nat, tokens: seq<string>,
                            seen: set<NodeID>, decode: string -> Option<PublicKey>, unhex: string -> Option<PublicKey>)
    returns (engine: ValidatorList, d: ListDisposition, changes: TrustChanges)
    requires ParseAll(tokens, PublisherParser(unhex)) == Some([p])
    requires m.masterKey == p && m.Verify() && !m.Revoked() && 0 < expiration && a != b
    ensures fresh(engine) && fresh(engine.validatorManifests) && engine.Valid()
    ensures engine.validatorManifests == engine.publisherManifests
    ensures engine.publisherLists == OneList(p, a, b, expiration)
    ensures engine.staticKeys == {} && engine.trustedKeys == {a, b} && engine.minimumQuorum == None
    ensures d == ListDisposition.Accepted
    ensures changes == TrustChanges({CalcNodeID(a), CalcNodeID(b)}, {}) && engine.quorum == 2
  {
    engine, d := EngineWithList(p, m, a, b, expiration, tokens, decode, unhex);
    OneListTrusted(p, m, a, b, expiration, 0, engine.validatorManifests.State());
    changes := engine.UpdateTrusted(seen, 0);
  }

  /**
   * An accepted list's members are trusted until the list expires; then
   * they are all removed and, with nothing else trusted, the quorum is the
   * sentinel.
   */
  method ListExpiry(p: PublicKey, m: Manifest, a: PublicKey, b: PublicKey, expiration: nat, tokens: seq<string>,
                    seen: set<NodeID>, decode: string -> Option<PublicKey>, unhex: string -> Option<PublicKey>)
    returns (d: ListDisposition, added: set<NodeID>, quorum: nat, removed: set<NodeID>, expiredQuorum: nat)
    requires ParseAll(tokens, PublisherParser(unhex)) == Some([p])
    requires m.masterKey == p && m.Verify() && !m.Revoked()
    requires a != b && 0 < expiration
    ensures d == ListDisposition.Accepted
    ensures added == {CalcNodeID(a), CalcNodeID(b)} && quorum == 2
    ensures removed == {CalcNodeID(a), CalcNodeID(b)} && expiredQuorum == MaxQuorum
  {
    var engine, changes;
    engine, d, changes := EngineTrustingList(p, m, a, b, expiration, tokens, seen, decode, unhex);
    added := changes.added;
    quorum := engine.quorum;

    OneListExpired(p, a, b, expiration, engine.validatorManifests.State());
    changes := engine.UpdateTrusted(seen, expiration);
    removed := changes.removed;
    expiredQuorum := engine.quorum;
  }
}
