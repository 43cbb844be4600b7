/**
 * Manifests and the manifest cache.
 *
 * A manifest binds a long-lived master key to a short-lived signing key and
 * carries a sequence number; the sequence 0xFFFFFFFF marks a revocation, after
 * which the master key stands for itself. The cache keeps the highest-sequence
 * manifest per master key and an index from signing key back to master key.
 *
 * Keys are opaque byte strings. Signature checking is not modelled: each
 * manifest records whether its master and signing signatures verify.
 */
module Manifests {

  /** A public key, compared byte for byte. */
  type PublicKey = seq<bv8>

  /** `std::uint32_t`. */
  newtype uint32 = x: int | 0 <= x < 0x1_0000_0000

  /** The sequence number of a revocation manifest. */
  const RevokedSequence: uint32 := 0xFFFF_FFFF

  /**
   * A decoded manifest. For a revocation the signing key is absent on the
   * wire and ignored here.
   */
  datatype Manifest = Manifest(
    masterKey: PublicKey,
    signingKey: PublicKey,
    sequence: uint32,
    masterSignatureValid: bool,
    signingSignatureValid: bool)
  {
    predicate Revoked() {
      sequence == RevokedSequence
    }

    /** The master signature always verifies; the signing one unless revoked. */
    predicate Verify() {
      masterSignatureValid && (Revoked() || signingSignatureValid)
    }
  }

  /** `ManifestDisposition`. */
  datatype ManifestDisposition = Accepted | Stale | Invalid

  /**
   * The contents of a manifest cache: the best manifest per master key and
   * the index from current signing key to master key.
   */
  datatype CacheState = CacheState(
    manifests: map<PublicKey, Manifest>,
    signingToMaster: map<PublicKey, PublicKey>)
  {
    /** `master` holds an unrevoked manifest whose signing key is `signing`. */
    predicate Delegates(master: PublicKey, signing: PublicKey) {
      master in manifests && !manifests[master].Revoked() && manifests[master].signingKey == signing
    }

    /**
     * Each manifest is stored under its own master key, and the index only
     * points from a signing key to the master that currently delegates to it.
     */
    ghost predicate Valid() {
      (forall k :: k in manifests ==> manifests[k].masterKey == k) &&
      (forall s :: s in signingToMaster ==> Delegates(signingToMaster[s], s))
    }

    /** `ManifestCache::revoked`. */
    predicate Revoked(master: PublicKey) {
      master in manifests && manifests[master].Revoked()
    }

    /** `ManifestCache::getSigningKey`: the master itself when unknown or revoked. */
    function SigningKey(master: PublicKey): PublicKey {
      if master in manifests && !manifests[master].Revoked() then manifests[master].signingKey else master
    }

    /** `ManifestCache::getMasterKey`: the key itself when it is no current signing key. */
    function MasterKey(key: PublicKey): PublicKey {
      if key in signingToMaster then signingToMaster[key] else key
    }

    /**
     * `ManifestCache::applyManifest`: a manifest whose signatures fail is
     * invalid; one whose sequence does not exceed the stored one is stale;
     * otherwise it replaces the stored manifest, the previous signing key
     * leaves the index and, unless it revokes, the new one enters it.
     */
    function Apply(m: Manifest): (r: (ManifestDisposition, CacheState))
      requires Valid()
      ensures r.1.Valid()
      ensures (r.0 == Accepted) <==>
                m.Verify() && (m.masterKey in manifests ==> manifests[m.masterKey].sequence < m.sequence)
      ensures r.0 == Invalid <==> !m.Verify()
      ensures r.0 != Accepted ==> r.1 == this
      ensures r.0 == Accepted ==> r.1.manifests == manifests[m.masterKey := m]
    {
      var master := m.masterKey;
      if !m.Verify() then (Invalid, this)
      else if master in manifests && m.sequence <= manifests[master].sequence then (Stale, this)
      else
        var pruned := if master in manifests then signingToMaster - {manifests[master].signingKey} else signingToMaster;
        var index := if m.Revoked() then pruned else pruned[m.signingKey := master];
        var next := CacheState(manifests[master := m], index);
        assert next.Valid() by {
          forall s | s in index ensures next.Delegates(index[s], s) {
            if s != m.signingKey || m.Revoked() {
              assert s in signingToMaster && Delegates(signingToMaster[s], s);
            }
          }
        }
        (Accepted, next)
    }

    /** Applies the manifests one after the other, last one last. */
    function ApplyAll(ms: seq<Manifest>): (c: CacheState)
      requires Valid()
      ensures c.Valid()
    {
      if ms == [] then this else ApplyAll(ms[..|ms| - 1]).Apply(ms[|ms| - 1]).1
    }
  }

  /** An empty cache. */
  const EmptyCache := CacheState(map[], map[])

  // ---------------------------------------------------------------------
  // Properties of the cache

  /**
   * Rotation: an accepted manifest that does not revoke makes its signing
   * key resolve to the master and back, and the master's previous signing
   * key (when different) no longer resolves to it.
   */
  lemma RotationResolves(c: CacheState, m: Manifest)
    requires c.Valid() && !m.Revoked() && c.Apply(m).0 == Accepted
    ensures c.Apply(m).1.MasterKey(m.signingKey) == m.masterKey
    ensures c.Apply(m).1.SigningKey(m.masterKey) == m.signingKey
    ensures forall k :: k != m.signingKey && c.Apply(m).1.MasterKey(k) == m.masterKey ==> k == m.masterKey
  {
    var next := c.Apply(m).1;
    forall k | k != m.signingKey && next.MasterKey(k) == m.masterKey ensures k == m.masterKey {
      assert k !in next.signingToMaster;
    }
  }

  /**
   * Revocation: after an accepted revocation the master is revoked, is its
   * own signing key, and no other key resolves to it.
   */
  lemma RevocationResolves(c: CacheState, m: Manifest)
    requires c.Valid() && m.Revoked() && c.Apply(m).0 == Accepted
    ensures c.Apply(m).1.Revoked(m.masterKey)
    ensures c.Apply(m).1.SigningKey(m.masterKey) == m.masterKey
    ensures forall k :: c.Apply(m).1.MasterKey(k) == m.masterKey ==> k == m.masterKey
  {
    var next := c.Apply(m).1;
    forall k | next.MasterKey(k) == m.masterKey ensures k == m.masterKey {
      assert k !in next.signingToMaster;
    }
  }

  /** A key that resolves to another key is that key's current signing key. */
  lemma MasterKeyDelegates(c: CacheState, k: PublicKey)
    requires c.Valid() && c.MasterKey(k) != k
    ensures c.Delegates(c.MasterKey(k), k)
    ensures c.SigningKey(c.MasterKey(k)) == k
  {
  }

  /**
   * Revocation is terminal for one manifest: a revoked master stays revoked
   * and no manifest for it is accepted.
   */
  lemma RevokedStaysRevoked(c: CacheState, k: PublicKey, m: Manifest)
    requires c.Valid() && c.Revoked(k)
    ensures c.Apply(m).1.Revoked(k)
    ensures m.masterKey == k ==> c.Apply(m).0 != Accepted
  {
  }

  /** Revocation is terminal for any sequence of manifests. */
  lemma {:induction false} RevocationIsTerminal(c: CacheState, k: PublicKey, ms: seq<Manifest>)
    requires c.Valid() && c.Revoked(k)
    ensures c.ApplyAll(ms).Revoked(k)
    ensures c.ApplyAll(ms).manifests[k] == c.manifests[k]
  {
    if ms != [] {
      var prefix := ms[..|ms| - 1];
      RevocationIsTerminal(c, k, prefix);
      RevokedStaysRevoked(c.ApplyAll(prefix), k, ms[|ms| - 1]);
    }
  }

  /** Stored sequence numbers never decrease, and a stored master is never dropped. */
  lemma {:induction false} SequencesNeverDecrease(c: CacheState, ms: seq<Manifest>, k: PublicKey)
    requires c.Valid() && k in c.manifests
    ensures k in c.ApplyAll(ms).manifests
    ensures c.manifests[k].sequence <= c.ApplyAll(ms).manifests[k].sequence
  {
    if ms != [] {
      SequencesNeverDecrease(c, ms[..|ms| - 1], k);
    }
  }

  /**
   * Two valid manifests for the same master with increasing sequences are
   * both accepted in order, while the older one is stale once the newer one
   * is in.
   */
  lemma OrderedManifests(c: CacheState, m1: Manifest, m2: Manifest)
    requires c.Valid() && m1.Verify() && m2.Verify()
    requires m1.masterKey == m2.masterKey && m1.sequence < m2.sequence
    requires m1.masterKey in c.manifests ==> c.manifests[m1.masterKey].sequence < m1.sequence
    ensures c.Apply(m1).0 == Accepted && c.Apply(m1).1.Apply(m2).0 == Accepted
    ensures c.Apply(m2).0 == Accepted && c.Apply(m2).1.Apply(m1).0 == Stale
  {
  }

  // ---------------------------------------------------------------------
  // The cache as an object

  /** `ManifestCache`: an object whose two maps `applyManifest` updates in place. */
  class ManifestCache {
    var manifests: map<PublicKey, Manifest>
    var signingToMaster: map<PublicKey, PublicKey>

    /** The contents of the cache as a value. */
    function State(): CacheState
      reads this
    {
      CacheState(manifests, signingToMaster)
    }

    ghost predicate Valid()
      reads this
    {
      State().Valid()
    }

    constructor()
      ensures Valid() && State() == EmptyCache
    {
      manifests := map[];
      signingToMaster := map[];
    }

    /** `ManifestCache::applyManifest`, step by step on the two maps. */
    method ApplyManifest(m: Manifest) returns (d: ManifestDisposition)
      requires Valid()
      modifies this
      ensures Valid()
      ensures (d, State()) == old(State()).Apply(m)
    {
      var master := m.masterKey;
      if !m.Verify() {
        return Invalid;
      }
      if master in manifests && m.sequence <= manifests[master].sequence {
        return Stale;
      }
      if master in manifests {
        signingToMaster := signingToMaster - {manifests[master].signingKey};
      }
      if !m.Revoked() {
        signingToMaster := signingToMaster[m.signingKey := master];
      }
      manifests := manifests[master := m];
      return Accepted;
    }

    /** `ManifestCache::getSigningKey`. */
    function GetSigningKey(master: PublicKey): (k: PublicKey)
      reads this
      ensures State().Delegates(master, k) <==> master in manifests && !manifests[master].Revoked()
      ensures !State().Delegates(master, k) ==> k == master
    {
      State().SigningKey(master)
    }

    /** `ManifestCache::getMasterKey`. */
    function GetMasterKey(key: PublicKey): (k: PublicKey)
      reads this
      ensures Valid() && k != key ==> State().Delegates(k, key) && GetSigningKey(k) == key
      ensures key !in signingToMaster ==> k == key
    {
      State().MasterKey(key)
    }

    /** `ManifestCache::revoked`. */
    predicate IsRevoked(master: PublicKey)
      reads this
      ensures IsRevoked(master) <==> master in manifests && manifests[master].sequence == RevokedSequence
      ensures IsRevoked(master) ==> GetSigningKey(master) == master
    {
      State().Revoked(master)
    }
  }
}
