/**
 * The value-level rules of the validator trust engine: configuration
 * tokens, published lists and their dispositions, the candidate and trusted
 * sets, the quorum and the expiry report. The `ValidatorList` object that
 * holds this state is in module TrustEngine.
 */
module ValidatorLists {
  import opened Wrappers
  import opened Manifests

  // ---------------------------------------------------------------------
  // Node identities

  /**
   * `NodeID`: the digest of a public key. The digest is collision resistant,
   * which the model takes as exact: the identifier keeps the whole key.
   */
  datatype NodeID = NodeID(key: PublicKey)

  /** `calcNodeID`. */
  function CalcNodeID(k: PublicKey): NodeID {
    NodeID(k)
  }

  /** The identifiers of a set of keys. */
  function NodeIDs(keys: set<PublicKey>): (ids: set<NodeID>)
    ensures forall k :: k in keys <==> CalcNodeID(k) in ids
    ensures forall id :: id in ids ==> id.key in keys
  {
    set k | k in keys :: CalcNodeID(k)
  }

  /** Distinct keys have distinct identifiers, so no key is counted twice. */
  lemma {:induction false} NodeIDsCardinality(keys: set<PublicKey>)
    ensures |NodeIDs(keys)| == |keys|
  {
    if keys != {} {
      var k :| k in keys;
      NodeIDsCardinality(keys - {k});
      assert NodeIDs(keys) == NodeIDs(keys - {k}) + {CalcNodeID(k)};
    }
  }

  /** Identifiers commute with set difference. */
  lemma NodeIDsDifference(a: set<PublicKey>, b: set<PublicKey>)
    ensures NodeIDs(a) - NodeIDs(b) == NodeIDs(a - b)
  {
    forall id | id in NodeIDs(a) - NodeIDs(b) ensures id in NodeIDs(a - b) {
      assert CalcNodeID(id.key) == id;
    }
  }

  // ---------------------------------------------------------------------
  // Configuration tokens

  /** `[[:space:]]` in the C locale. */
  predicate IsSpace(ch: char) {
    ch == ' ' || ch == '\t' || ch == '\n' || ch == '\r' || ch as int == 11 || ch as int == 12
  }

  /** `[[:alnum:]]` in the C locale. */
  predicate IsAlnum(ch: char) {
    'a' <= ch <= 'z' || 'A' <= ch <= 'Z' || '0' <= ch <= '9'
  }

  /** What is left of `s` after its leading whitespace. */
  function SkipSpaces(s: string): (r: string)
    ensures |r| <= |s| && r == s[|s| - |r|..]
    ensures forall i :: 0 <= i < |s| - |r| ==> IsSpace(s[i])
    ensures r == [] || !IsSpace(r[0])
  {
    if s != [] && IsSpace(s[0]) then SkipSpaces(s[1..]) else s
  }

  /** The length of the longest alphanumeric prefix of `s`. */
  function AlnumRun(s: string): (n: nat)
    ensures n <= |s|
    ensures forall i :: 0 <= i < n ==> IsAlnum(s[i])
    ensures n == |s| || !IsAlnum(s[n])
  {
    if s != [] && IsAlnum(s[0]) then 1 + AlnumRun(s[1..]) else 0
  }

  /**
   * The node identity of a static-key token: optional leading whitespace,
   * an alphanumeric identity, then nothing or whitespace followed by a free
   * comment. Any other shape is rejected.
   */
  function TokenIdentity(token: string): (r: Option<string>)
    ensures r.Some? ==> |r.value| > 0 && forall i :: 0 <= i < |r.value| ==> IsAlnum(r.value[i])
    ensures r.Some? ==> IdentityShape(token, |token| - |SkipSpaces(token)|, r.value)
  {
    var t := SkipSpaces(token);
    var n := AlnumRun(t);
    if n == 0 || (n < |t| && !IsSpace(t[n])) then None
    else
      IdentitySplits(token, t, n);
      Some(t[..n])
  }

  /**
   * `token` is `lead` whitespace characters, then `id`, then nothing or a
   * comment that starts with whitespace.
   */
  predicate IdentityShape(token: string, lead: nat, id: string) {
    lead + |id| <= |token| && token == token[..lead] + id + token[lead + |id|..] &&
    (forall i :: 0 <= i < lead ==> IsSpace(token[i])) &&
    (lead + |id| == |token| || IsSpace(token[lead + |id|]))
  }

  /** Whitespace `lead` long, then `t`'s first `n` characters followed by nothing or whitespace. */
  lemma IdentitySplits(token: string, t: string, n: nat)
    requires |t| <= |token| && t == token[|token| - |t|..]
    requires forall i :: 0 <= i < |token| - |t| ==> IsSpace(token[i])
    requires 0 < n <= |t| && (n < |t| ==> IsSpace(t[n]))
    ensures IdentityShape(token, |token| - |t|, t[..n])
  {
    var lead := |token| - |t|;
    assert t[..n] == token[lead..lead + n];
    SliceSplits(token, lead, t[..n]);
    assert lead + n < |token| ==> token[lead + n] == t[n];
  }

  lemma SliceSplits(s: string, lead: nat, id: string)
    requires lead + |id| <= |s| && s[lead..lead + |id|] == id
    ensures s == s[..lead] + id + s[lead + |id|..]
  {
    assert s == s[..lead] + s[lead..lead + |id|] + s[lead + |id|..];
  }

  /** Whitespace, an identity, and nothing or a whitespace-led comment is accepted. */
  lemma TokenWithComment(lead: string, id: string, comment: string)
    requires forall i :: 0 <= i < |lead| ==> IsSpace(lead[i])
    requires |id| > 0 && forall i :: 0 <= i < |id| ==> IsAlnum(id[i])
    requires comment == [] || IsSpace(comment[0])
    ensures TokenIdentity(lead + id + comment) == Some(id)
  {
    var token := lead + id + comment;
    var rest := id + comment;
    assert token == lead + rest;
    assert rest[0] == id[0];
    SkipsLead(lead, rest);
    RunOverIdentity(id, comment);
    assert |id| < |rest| ==> rest[|id|] == comment[0];
    IdentityAfterSpaces(token, rest, |id|);
    assert rest[..|id|] == id;
  }

  /** The identity of a token whose leading whitespace leaves `rest`, of which `n` characters are alphanumeric. */
  lemma IdentityAfterSpaces(token: string, rest: string, n: nat)
    requires SkipSpaces(token) == rest && AlnumRun(rest) == n && n > 0
    requires n < |rest| ==> IsSpace(rest[n])
    ensures TokenIdentity(token) == Some(rest[..n])
  {
  }

  /** A comment glued to the identity by a non-space, non-alphanumeric character is rejected. */
  lemma TokenWithGluedComment(lead: string, id: string, comment: string)
    requires forall i :: 0 <= i < |lead| ==> IsSpace(lead[i])
    requires |id| > 0 && forall i :: 0 <= i < |id| ==> IsAlnum(id[i])
    requires comment != [] && !IsSpace(comment[0]) && !IsAlnum(comment[0])
    ensures TokenIdentity(lead + id + comment) == None
  {
    var token := lead + id + comment;
    SkipsLead(lead, id + comment);
    assert token == lead + (id + comment);
    RunOverIdentity(id, comment);
    assert (id + comment)[|id|] == comment[0];
  }

  lemma {:induction false} SkipsLead(lead: string, rest: string)
    requires forall i :: 0 <= i < |lead| ==> IsSpace(lead[i])
    requires rest == [] || !IsSpace(rest[0])
    ensures SkipSpaces(lead + rest) == rest
  {
    if lead != [] {
      assert (lead + rest)[1..] == lead[1..] + rest;
      SkipsLead(lead[1..], rest);
    }
  }

  lemma {:induction false} RunOverIdentity(id: string, rest: string)
    requires forall i :: 0 <= i < |id| ==> IsAlnum(id[i])
    requires rest == [] || !IsAlnum(rest[0])
    ensures AlnumRun(id + rest) == |id|
  {
    if id != [] {
      assert (id + rest)[1..] == id[1..] + rest;
      RunOverIdentity(id[1..], rest);
    }
  }

  /** A static-key token: its identity, decoded by `decode` (base58 node public key). */
  function ParseStaticToken(token: string, decode: string -> Option<PublicKey>): (r: Option<PublicKey>)
    ensures r.Some? ==> TokenIdentity(token).Some? && decode(TokenIdentity(token).value) == r
    ensures TokenIdentity(token).Some? ==> r == decode(TokenIdentity(token).value)
  {
    match TokenIdentity(token)
    case None => None
    case Some(id) => decode(id)
  }

  /** A publisher token: a non-empty key in hex, decoded by `unhex`. */
  function ParsePublisherToken(token: string, unhex: string -> Option<PublicKey>): (r: Option<PublicKey>)
    ensures r.Some? <==> unhex(token).Some? && |unhex(token).value| > 0
    ensures r.Some? ==> r == unhex(token)
  {
    match unhex(token)
    case Some(k) => if |k| > 0 then Some(k) else None
    case None => None
  }

  /** Parses every token, or fails when any one of them fails. */
  function ParseAll(tokens: seq<string>, parse: string -> Option<PublicKey>): (r: Option<seq<PublicKey>>)
    ensures r.Some? <==> forall i :: 0 <= i < |tokens| ==> parse(tokens[i]).Some?
    ensures r.Some? ==> |r.value| == |tokens| && forall i :: 0 <= i < |tokens| ==> Some(r.value[i]) == parse(tokens[i])
  {
    if tokens == [] then Some([])
    else
      match ParseAll(tokens[..|tokens| - 1], parse)
      case None => None
      case Some(keys) =>
        match parse(tokens[|tokens| - 1])
        case None => None
        case Some(k) => Some(keys + [k])
  }

  /** The parser of static-key tokens, as a function value. */
  function StaticParser(decode: string -> Option<PublicKey>): string -> Option<PublicKey> {
    token => ParseStaticToken(token, decode)
  }

  /** The parser of publisher tokens, as a function value. */
  function PublisherParser(unhex: string -> Option<PublicKey>): string -> Option<PublicKey> {
    token => ParsePublisherToken(token, unhex)
  }

  /** The static keys one `load` call adds: the local key's master key, when given, and the configured keys. */
  function LoadedKeys(localSigningKey: PublicKey, keys: seq<PublicKey>, validators: CacheState): (r: set<PublicKey>)
    ensures forall k :: k in keys ==> k in r
    ensures |localSigningKey| > 0 ==> validators.MasterKey(localSigningKey) in r
    ensures forall k :: k in r ==> k in keys || (|localSigningKey| > 0 && k == validators.MasterKey(localSigningKey))
  {
    (if |localSigningKey| > 0 then {validators.MasterKey(localSigningKey)} else {}) + set k | k in keys
  }

  // ---------------------------------------------------------------------
  // Published lists

  /**
   * What the engine keeps per configured publisher: whether a current list
   * is available, the sequence and expiration of the last accepted list
   * (no expiration while none has been accepted), and its members.
   */
  datatype PublisherList = PublisherList(
    available: bool,
    sequence: nat,
    expiration: Option<nat>,
    members: set<PublicKey>)

  /** A configured publisher whose list has not arrived. */
  const Unfetched := PublisherList(false, 0, None, {})

  /** Only an available list has members, and only a fetched one is available. */
  predicate WellFormed(l: PublisherList) {
    (!l.available ==> l.members == {}) &&
    (l.expiration.None? ==> l == Unfetched)
  }

  ghost predicate AllWellFormed(lists: map<PublicKey, PublisherList>) {
    forall p :: p in lists ==> WellFormed(lists[p])
  }

  /** One entry of a published list: the validator's master key (absent when it does not decode) and its manifest. */
  datatype ListedValidator = ListedValidator(masterKey: Option<PublicKey>, manifest: Option<Manifest>)

  /** The decoded body of a published list. */
  datatype ListBody = ListBody(sequence: nat, expiration: nat, validators: seq<ListedValidator>)

  /**
   * One `applyList` call, already decoded: the publisher's manifest (absent
   * when it does not decode), the key that made the list's signature (absent
   * when the signature does not decode), the body (absent when malformed)
   * and the protocol version.
   */
  datatype ListSubmission = ListSubmission(
    manifest: Option<Manifest>,
    signer: Option<PublicKey>,
    body: Option<ListBody>,
    version: int)

  /** `ListDisposition`. */
  datatype ListDisposition = Accepted | SameSequence | Stale | Invalid | Untrusted | UnsupportedVersion

  /** The only list format version the engine accepts. */
  const RequiredListVersion := 1

  /** The master keys a list body names. */
  function Members(b: ListBody): (keys: set<PublicKey>)
    ensures forall v :: v in b.validators && v.masterKey.Some? ==> v.masterKey.value in keys
    ensures forall k :: k in keys ==> exists v :: v in b.validators && v.masterKey == Some(k)
  {
    set v | v in b.validators && v.masterKey.Some? :: v.masterKey.value
  }

  /** The manifests a list body carries, in list order. */
  function EmbeddedManifests(vs: seq<ListedValidator>): (ms: seq<Manifest>)
    ensures forall m :: m in ms <==> exists v :: v in vs && v.manifest == Some(m)
  {
    if vs == [] then []
    else
      var rest := EmbeddedManifests(vs[..|vs| - 1]);
      var v := vs[|vs| - 1];
      assert vs == vs[..|vs| - 1] + [v];
      if v.manifest.Some? then rest + [v.manifest.value] else rest
  }

  /** The record kept for a publisher once `b` has been accepted. */
  function AcceptedList(b: ListBody): (l: PublisherList)
    ensures WellFormed(l) && l.available
  {
    PublisherList(true, b.sequence, Some(b.expiration), Members(b))
  }

  /** The result of the checks of `applyList`: disposition, new lists, new publisher cache. */
  datatype ListOutcome = ListOutcome(
    disposition: ListDisposition,
    lists: map<PublicKey, PublisherList>,
    publishers: CacheState)

  /**
   * The checks of `applyList`, in order: the version; the publisher's
   * manifest, which must decode and name a configured publisher, is applied
   * to the publisher cache, and a revocation (which, once accepted, drops the
   * publisher) or an invalid manifest makes the list untrusted; the
   * signature must come from the publisher's current signing key; the body
   * must be well formed; an older or already expired list is stale; a list
   * with the stored sequence is a repeat. Otherwise the list replaces the
   * publisher's previous one.
   */
  function CheckList(s: ListSubmission, lists: map<PublicKey, PublisherList>, pub: CacheState, now: nat): (o: ListOutcome)
    requires pub.Valid()
    ensures o.publishers.Valid()
    ensures o.disposition == ListDisposition.Accepted ==>
              s.version == RequiredListVersion && s.manifest.Some? && s.body.Some? &&
              s.manifest.value.masterKey in lists &&
              s.manifest.value.Verify() && !s.manifest.value.Revoked() &&
              s.signer == Some(o.publishers.SigningKey(s.manifest.value.masterKey)) &&
              s.body.value.expiration > now &&
              s.body.value.sequence > lists[s.manifest.value.masterKey].sequence &&
              o.lists == lists[s.manifest.value.masterKey := AcceptedList(s.body.value)]
    ensures o.disposition != ListDisposition.Accepted ==> o.lists.Keys <= lists.Keys && forall p :: p in o.lists ==> o.lists[p] == lists[p]
    ensures o.disposition != ListDisposition.Untrusted ==> o.lists.Keys == lists.Keys
    ensures o.disposition == ListDisposition.UnsupportedVersion <==> s.version != RequiredListVersion
    ensures s.manifest.Some? && s.manifest.value.masterKey in lists && s.version == RequiredListVersion ==>
              o.publishers == pub.Apply(s.manifest.value).1
    ensures !(s.manifest.Some? && s.manifest.value.masterKey in lists && s.version == RequiredListVersion) ==>
              o.publishers == pub
  {
    if s.version != RequiredListVersion then ListOutcome(ListDisposition.UnsupportedVersion, lists, pub)
    else if s.manifest.None? || s.manifest.value.masterKey !in lists then ListOutcome(ListDisposition.Untrusted, lists, pub)
    else
      var m := s.manifest.value;
      var master := m.masterKey;
      var (result, pub') := pub.Apply(m);
      if m.Revoked() then
        ListOutcome(ListDisposition.Untrusted, if result == ManifestDisposition.Accepted then lists - {master} else lists, pub')
      else if result == ManifestDisposition.Invalid then ListOutcome(ListDisposition.Untrusted, lists, pub')
      else if s.signer != Some(pub'.SigningKey(master)) then ListOutcome(ListDisposition.Invalid, lists, pub')
      else if s.body.None? then ListOutcome(ListDisposition.Invalid, lists, pub')
      else
        var b := s.body.value;
        if b.sequence < lists[master].sequence || b.expiration <= now then ListOutcome(ListDisposition.Stale, lists, pub')
        else if b.sequence == lists[master].sequence then ListOutcome(ListDisposition.SameSequence, lists, pub')
        else ListOutcome(ListDisposition.Accepted, lists[master := AcceptedList(b)], pub')
  }

  /** Accepted lists keep every record well formed. */
  lemma CheckListWellFormed(s: ListSubmission, lists: map<PublicKey, PublisherList>, pub: CacheState, now: nat)
    requires pub.Valid() && AllWellFormed(lists)
    ensures AllWellFormed(CheckList(s, lists, pub, now).lists)
  {
  }

  // ---------------------------------------------------------------------
  // Recomputation of the trusted set

  /** A list whose expiration has passed is no longer available and loses its members. */
  function Expire(l: PublisherList, now: nat): (r: PublisherList)
    ensures r.sequence == l.sequence && r.expiration == l.expiration
    ensures r.available <==> l.available && !(l.expiration.Some? && l.expiration.value <= now)
    ensures r.available ==> r.members == l.members
    ensures WellFormed(l) ==> WellFormed(r)
  {
    if l.available && l.expiration.Some? && l.expiration.value <= now then l.(available := false, members := {}) else l
  }

  /**
   * Configures publishers: a key the publisher cache already holds as
   * revoked is skipped, and a publisher already configured keeps its record;
   * every other key starts without a list.
   */
  function AddPublishers(lists: map<PublicKey, PublisherList>, keys: seq<PublicKey>, publishers: CacheState)
    : (r: map<PublicKey, PublisherList>)
    ensures r.Keys == lists.Keys + (set k | k in keys && !publishers.Revoked(k))
    ensures forall p :: p in lists ==> r[p] == lists[p]
    ensures forall p :: p in r && p !in lists ==> r[p] == Unfetched
  {
    if keys == [] then lists
    else
      var r := AddPublishers(lists, keys[..|keys| - 1], publishers);
      var k := keys[|keys| - 1];
      assert keys == keys[..|keys| - 1] + [k];
      if publishers.Revoked(k) || k in r then r else r[k := Unfetched]
  }

  /** Every key known to the engine: the static keys and the members of every stored list. */
  function ListedKeys(staticKeys: set<PublicKey>, lists: map<PublicKey, PublisherList>): (keys: set<PublicKey>)
    ensures staticKeys <= keys
    ensures forall p, k :: p in lists && k in lists[p].members ==> k in keys
    ensures forall k :: k in keys ==> k in staticKeys || exists p :: p in lists && k in lists[p].members
  {
    staticKeys + set p, k | p in lists && k in lists[p].members :: k
  }

  /**
   * Applies to the validator cache, in order, the manifests of a list whose
   * master key is listed; the others are ignored.
   */
  function ApplyListed(c: CacheState, ms: seq<Manifest>, listed: set<PublicKey>): (r: CacheState)
    requires c.Valid()
    ensures r.Valid()
  {
    if ms == [] then c
    else
      var r := ApplyListed(c, ms[..|ms| - 1], listed);
      var m := ms[|ms| - 1];
      if m.masterKey in listed then r.Apply(m).1 else r
  }

  /** A list never changes the manifest of a validator it does not list. */
  lemma {:induction false} ApplyListedOnlyListed(c: CacheState, ms: seq<Manifest>, listed: set<PublicKey>, k: PublicKey)
    requires c.Valid() && k !in listed
    ensures (k in ApplyListed(c, ms, listed).manifests) == (k in c.manifests)
    ensures k in c.manifests ==> ApplyListed(c, ms, listed).manifests[k] == c.manifests[k]
  {
    if ms != [] {
      ApplyListedOnlyListed(c, ms[..|ms| - 1], listed, k);
    }
  }

  /** No manifest other than `master`'s in `c` uses the signing key `s`. */
  ghost predicate KeyOnlyFor(c: CacheState, master: PublicKey, s: PublicKey) {
    forall k :: k in c.manifests && k != master ==> c.manifests[k].signingKey != s
  }

  /** Applying manifests in two runs is applying them in one. */
  lemma {:induction false} ApplyListedAppend(c: CacheState, a: seq<Manifest>, b: seq<Manifest>, listed: set<PublicKey>)
    requires c.Valid()
    ensures ApplyListed(c, a + b, listed) == ApplyListed(ApplyListed(c, a, listed), b, listed)
  {
    if b == [] {
      assert a + b == a;
    } else {
      assert (a + b)[..|a + b| - 1] == a + b[..|b| - 1];
      ApplyListedAppend(c, a, b[..|b| - 1], listed);
    }
  }

  /**
   * Manifests for other masters and other signing keys leave `master`'s
   * manifest alone, and also the index entry from `s` to `master` as long
   * as no other master holds `s`.
   */
  lemma {:induction false} ApplyListedAvoiding(c: CacheState, ms: seq<Manifest>, listed: set<PublicKey>, master: PublicKey, s: PublicKey)
    requires c.Valid()
    requires forall j :: 0 <= j < |ms| ==> ms[j].masterKey != master && ms[j].signingKey != s
    ensures var r := ApplyListed(c, ms, listed);
      (master in r.manifests <==> master in c.manifests) &&
      (master in c.manifests ==> r.manifests[master] == c.manifests[master]) &&
      (KeyOnlyFor(c, master, s) ==> KeyOnlyFor(r, master, s)) &&
      (KeyOnlyFor(c, master, s) && c.MasterKey(s) == master ==> r.MasterKey(s) == master)
  {
    if ms != [] {
      var prefix := ms[..|ms| - 1];
      ApplyListedAvoiding(c, prefix, listed, master, s);
      var r := ApplyListed(c, prefix, listed);
      var m := ms[|ms| - 1];
      if m.masterKey in listed && r.Apply(m).0 == ManifestDisposition.Accepted {
        assert m.masterKey in r.manifests ==> r.manifests[m.masterKey].signingKey != s || !KeyOnlyFor(c, master, s);
      }
    }
  }

  /**
   * A listed validator's manifest that verifies, does not revoke and is
   * newer than the stored one, and that no other manifest here shares a
   * master or a signing key with, is the one the cache holds afterwards:
   * its signing key resolves to its master and back.
   */
  lemma ApplyListedDelegates(c: CacheState, ms: seq<Manifest>, listed: set<PublicKey>, i: nat)
    requires c.Valid() && i < |ms|
    requires ms[i].masterKey in listed && ms[i].Verify() && !ms[i].Revoked()
    requires ms[i].masterKey in c.manifests ==> c.manifests[ms[i].masterKey].sequence < ms[i].sequence
    requires forall j :: 0 <= j < |ms| && j != i ==>
               ms[j].masterKey != ms[i].masterKey && ms[j].signingKey != ms[i].signingKey
    requires KeyOnlyFor(c, ms[i].masterKey, ms[i].signingKey)
    ensures ApplyListed(c, ms, listed).SigningKey(ms[i].masterKey) == ms[i].signingKey
    ensures ApplyListed(c, ms, listed).MasterKey(ms[i].signingKey) == ms[i].masterKey
  {
    var m := ms[i];
    var before, after := ms[..i], ms[i + 1..];
    ApplyListedAvoiding(c, before, listed, m.masterKey, m.signingKey);
    var r0 := ApplyListed(c, before, listed);
    assert ms[..i + 1][..i] == before;
    var r1 := ApplyListed(c, ms[..i + 1], listed);
    AppliedDelegates(r0, m);
    assert forall j :: 0 <= j < |after| ==> after[j] == ms[i + 1 + j];
    ApplyListedAvoiding(r1, after, listed, m.masterKey, m.signingKey);
    assert ms == ms[..i + 1] + after;
    ApplyListedAppend(c, ms[..i + 1], after, listed);
  }

  /** One accepted, unrevoking manifest whose signing key no other master holds takes effect both ways. */
  lemma AppliedDelegates(c: CacheState, m: Manifest)
    requires c.Valid() && m.Verify() && !m.Revoked()
    requires m.masterKey in c.manifests ==> c.manifests[m.masterKey].sequence < m.sequence
    requires KeyOnlyFor(c, m.masterKey, m.signingKey)
    ensures var r := c.Apply(m).1;
      m.masterKey in r.manifests && r.manifests[m.masterKey] == m &&
      KeyOnlyFor(r, m.masterKey, m.signingKey) && r.MasterKey(m.signingKey) == m.masterKey
  {
  }

  /** Every publisher's list, expired as of `now`. */
  function ExpireLists(lists: map<PublicKey, PublisherList>, now: nat): (r: map<PublicKey, PublisherList>)
    ensures r.Keys == lists.Keys
    ensures forall p :: p in r ==> r[p] == Expire(lists[p], now)
  {
    map p | p in lists :: Expire(lists[p], now)
  }

  /** Expiring twice at the same time changes nothing more. */
  lemma ExpireListsIdempotent(lists: map<PublicKey, PublisherList>, now: nat)
    ensures ExpireLists(ExpireLists(lists, now), now) == ExpireLists(lists, now)
  {
  }

  /** The members of the available list of each publisher that is not revoked. */
  function PublishedMembers(lists: map<PublicKey, PublisherList>, publishers: CacheState): (keys: set<PublicKey>)
    ensures forall k :: k in keys <==>
              exists p :: p in lists && lists[p].available && !publishers.Revoked(p) && k in lists[p].members
  {
    set p, k | p in lists && lists[p].available && !publishers.Revoked(p) && k in lists[p].members :: k
  }

  /** The candidate set: the static keys and the members of current lists of trusted publishers. */
  function Candidates(staticKeys: set<PublicKey>, lists: map<PublicKey, PublisherList>, publishers: CacheState): (c: set<PublicKey>)
    ensures staticKeys <= c
    ensures c - staticKeys <= PublishedMembers(lists, publishers)
    ensures PublishedMembers(lists, publishers) <= c
  {
    staticKeys + PublishedMembers(lists, publishers)
  }

  /** The trusted set: every candidate whose master key is not revoked. */
  function TrustedFrom(candidates: set<PublicKey>, validators: CacheState): (t: set<PublicKey>)
    ensures t <= candidates
    ensures forall k :: k in candidates ==> (k in t <==> !validators.Revoked(k))
  {
    set k | k in candidates && !validators.Revoked(k)
  }

  /** `TrustChanges`. */
  datatype TrustChanges = TrustChanges(added: set<NodeID>, removed: set<NodeID>)

  /** The changes between two trusted sets. */
  function Changes(before: set<PublicKey>, after: set<PublicKey>): (c: TrustChanges)
    ensures c.added == NodeIDs(after - before) && c.removed == NodeIDs(before - after)
    ensures c.added == {} && c.removed == {} <==> before == after
  {
    NodeIDsDifference(after, before);
    NodeIDsDifference(before, after);
    assert before == after <== (after - before == {} && before - after == {});
    TrustChanges(NodeIDs(after) - NodeIDs(before), NodeIDs(before) - NodeIDs(after))
  }

  // ---------------------------------------------------------------------
  // Quorum

  /** `std::numeric_limits<std::size_t>::max()`: the quorum when nothing is trusted. */
  const MaxQuorum: nat := 0xFFFF_FFFF_FFFF_FFFF

  /** ceil(0.8 k), in integers. */
  function CeilFourFifths(k: nat): (q: nat)
    ensures 5 * q >= 4 * k
    ensures q > 0 ==> 5 * (q - 1) < 4 * k
  {
    (4 * k + 4) / 5
  }

  /**
   * The quorum for `trusted` trusted keys when `seen` validators were
   * reported active: the sentinel when nothing is trusted; the configured
   * minimum while fewer than four fifths of the trusted count were seen;
   * otherwise the least count above four fifths of the trusted keys.
   */
  function QuorumFor(trusted: nat, seen: nat, minimum: Option<nat>): (q: nat)
    ensures trusted == 0 ==> q == MaxQuorum
    ensures trusted > 0 && minimum.Some? && 5 * seen < 4 * trusted ==> q == minimum.value
    ensures trusted > 0 && (minimum.None? || 5 * seen >= 4 * trusted) ==>
              5 * q >= 4 * trusted && 5 * (q - 1) < 4 * trusted
  {
    if trusted == 0 then MaxQuorum
    else if minimum.Some? && seen < CeilFourFifths(trusted) then minimum.value
    else CeilFourFifths(trusted)
  }

  // ---------------------------------------------------------------------
  // Expiry

  /** The time stamp `NetClock::time_point::max()`. */
  const MaxTime: nat := 0xFFFF_FFFF

  /**
   * The expirations `expires()` takes the minimum of: the static keys, when
   * there are any, never expire; each publisher contributes the expiration
   * of its last accepted list.
   */
  function ExpirationTimes(staticKeys: set<PublicKey>, lists: map<PublicKey, PublisherList>): (times: set<nat>)
    ensures staticKeys != {} ==> MaxTime in times
    ensures forall p :: p in lists && lists[p].expiration.Some? ==> lists[p].expiration.value in times
    ensures forall t :: t in times ==>
              (staticKeys != {} && t == MaxTime) || exists p :: p in lists && lists[p].expiration == Some(t)
  {
    (if staticKeys != {} then {MaxTime} else {}) + set p | p in lists && lists[p].expiration.Some? :: lists[p].expiration.value
  }

  /** Some configured publisher has not had a list accepted yet. */
  predicate SomeUnfetched(lists: map<PublicKey, PublisherList>) {
    exists p :: p in lists && lists[p].expiration.None?
  }

  // ---------------------------------------------------------------------
  // Properties of applyList

  /**
   * A submission that gets past the publisher checks: supported version, a
   * valid unrevoked manifest of a configured publisher, a signature by the
   * signing key the cache holds once that manifest is applied, and a body.
   */
  ghost predicate Authentic(s: ListSubmission, lists: map<PublicKey, PublisherList>, pub: CacheState)
    requires pub.Valid()
  {
    s.version == RequiredListVersion && s.manifest.Some? && s.body.Some? &&
    s.manifest.value.masterKey in lists && !s.manifest.value.Revoked() && s.manifest.value.Verify() &&
    s.signer == Some(pub.Apply(s.manifest.value).1.SigningKey(s.manifest.value.masterKey))
  }

  /**
   * For an authentic submission only the body decides: an older or expired
   * list is stale, a list with the stored sequence is a repeat, a newer one
   * is accepted; nothing but an accepted list changes the stored lists.
   */
  lemma AuthenticDisposition(s: ListSubmission, lists: map<PublicKey, PublisherList>, pub: CacheState, now: nat)
    requires pub.Valid() && Authentic(s, lists, pub)
    ensures var o := CheckList(s, lists, pub, now);
            var b := s.body.value;
            var prev := lists[s.manifest.value.masterKey].sequence;
            o.disposition == (if b.sequence < prev || b.expiration <= now then ListDisposition.Stale
                              else if b.sequence == prev then SameSequence
                              else ListDisposition.Accepted) &&
            (o.disposition != ListDisposition.Accepted ==> o.lists == lists)
  {
  }

  /** A manifest the cache has already taken leaves it unchanged when applied again. */
  lemma ReapplyIsStale(c: CacheState, m: Manifest)
    requires c.Valid() && m.Verify()
    ensures c.Apply(m).1.Apply(m).0 == ManifestDisposition.Stale
    ensures c.Apply(m).1.Apply(m).1 == c.Apply(m).1
  {
    var c' := c.Apply(m).1;
    if c.Apply(m).0 == ManifestDisposition.Accepted {
      assert c'.manifests[m.masterKey] == m;
    } else {
      assert c' == c;
    }
  }

  /**
   * After a list is accepted, the same submission, while unexpired, is a
   * repeat, and any authentic submission of an older sequence is stale.
   */
  lemma AcceptedListRepeats(s: ListSubmission, lists: map<PublicKey, PublisherList>, pub: CacheState, now: nat, later: nat)
    requires pub.Valid() && CheckList(s, lists, pub, now).disposition == ListDisposition.Accepted
    requires later < s.body.value.expiration
    ensures var o := CheckList(s, lists, pub, now);
            CheckList(s, o.lists, o.publishers, later).disposition == SameSequence
  {
    var o := CheckList(s, lists, pub, now);
    var m := s.manifest.value;
    ReapplyIsStale(pub, m);
    assert o.publishers.Apply(m).1 == o.publishers;
  }

  /** Once a list is accepted, an authentic submission with a lower sequence is stale. */
  lemma OlderListIsStale(s: ListSubmission, t: ListSubmission, lists: map<PublicKey, PublisherList>, pub: CacheState, now: nat)
    requires pub.Valid() && CheckList(s, lists, pub, now).disposition == ListDisposition.Accepted
    requires var o := CheckList(s, lists, pub, now);
             Authentic(t, o.lists, o.publishers) && t.manifest.value.masterKey == s.manifest.value.masterKey &&
             t.body.value.sequence < s.body.value.sequence
    ensures var o := CheckList(s, lists, pub, now);
            CheckList(t, o.lists, o.publishers, now).disposition == ListDisposition.Stale
  {
  }

  /**
   * An expired list is stale and nothing is recorded, so the same sequence
   * with a later expiration is accepted afterwards.
   */
  lemma ExpiredListNotRecorded(s: ListSubmission, lists: map<PublicKey, PublisherList>, pub: CacheState, now: nat, expiration: nat)
    requires pub.Valid() && Authentic(s, lists, pub)
    requires s.body.value.expiration <= now < expiration
    requires lists[s.manifest.value.masterKey].sequence < s.body.value.sequence
    ensures var o := CheckList(s, lists, pub, now);
            var renewed := s.(body := Some(s.body.value.(expiration := expiration)));
            o.disposition == ListDisposition.Stale && o.lists == lists &&
            CheckList(renewed, o.lists, o.publishers, now).disposition == ListDisposition.Accepted
  {
    var m := s.manifest.value;
    ReapplyIsStale(pub, m);
  }

  /** A submission whose manifest names no configured publisher is untrusted and changes nothing. */
  lemma UnknownPublisherUntrusted(s: ListSubmission, lists: map<PublicKey, PublisherList>, pub: CacheState, now: nat)
    requires pub.Valid() && s.version == RequiredListVersion
    requires s.manifest.None? || s.manifest.value.masterKey !in lists
    ensures CheckList(s, lists, pub, now) == ListOutcome(Untrusted, lists, pub)
  {
  }

  /**
   * After a publisher has rotated to a newer manifest, a list carrying the
   * older manifest and signed with the older signing key is invalid.
   */
  lemma SupersededManifestInvalid(s: ListSubmission, lists: map<PublicKey, PublisherList>, pub: CacheState, now: nat)
    requires pub.Valid() && s.version == RequiredListVersion
    requires s.manifest.Some? && s.manifest.value.masterKey in lists && s.manifest.value.Verify()
    requires var m := s.manifest.value;
             !m.Revoked() && s.signer == Some(m.signingKey) &&
             m.masterKey in pub.manifests && !pub.manifests[m.masterKey].Revoked() &&
             m.sequence <= pub.manifests[m.masterKey].sequence &&
             pub.manifests[m.masterKey].signingKey != m.signingKey
    ensures CheckList(s, lists, pub, now) == ListOutcome(ListDisposition.Invalid, lists, pub)
  {
  }

  /**
   * A list from a configured publisher whose manifest is valid and not a
   * revocation, but which is not signed by the signing key the publisher
   * cache holds once that manifest is applied, is invalid and changes no list.
   */
  lemma WrongSignerIsInvalid(s: ListSubmission, lists: map<PublicKey, PublisherList>, pub: CacheState, now: nat)
    requires pub.Valid() && s.version == RequiredListVersion
    requires s.manifest.Some? && s.manifest.value.masterKey in lists
    requires s.manifest.value.Verify() && !s.manifest.value.Revoked()
    requires s.signer != Some(pub.Apply(s.manifest.value).1.SigningKey(s.manifest.value.masterKey))
    ensures CheckList(s, lists, pub, now) == ListOutcome(ListDisposition.Invalid, lists, pub.Apply(s.manifest.value).1)
  {
  }

  /** A list whose publisher manifest does not verify is untrusted and changes neither the lists nor the cache. */
  lemma InvalidManifestUntrusted(s: ListSubmission, lists: map<PublicKey, PublisherList>, pub: CacheState, now: nat)
    requires pub.Valid() && s.version == RequiredListVersion
    requires s.manifest.Some? && !s.manifest.value.Verify()
    ensures CheckList(s, lists, pub, now) == ListOutcome(Untrusted, lists, pub)
  {
  }

  /**
   * A valid revocation of a configured publisher makes its list untrusted,
   * revokes the publisher and drops it with its list; the other publishers
   * are untouched.
   */
  lemma RevocationDropsPublisher(s: ListSubmission, lists: map<PublicKey, PublisherList>, pub: CacheState, now: nat)
    requires pub.Valid() && s.version == RequiredListVersion
    requires s.manifest.Some? && s.manifest.value.masterKey in lists
    requires s.manifest.value.Revoked() && s.manifest.value.Verify() && !pub.Revoked(s.manifest.value.masterKey)
    ensures var o := CheckList(s, lists, pub, now);
            o.disposition == Untrusted && o.publishers.Revoked(s.manifest.value.masterKey) &&
            o.lists == lists - {s.manifest.value.masterKey}
  {
  }

  /**
   * Once a list is accepted, a manifest it carries for one of its own members
   * (verified, not revoked, newer than the validator cache's, sharing no
   * master or signing key with another manifest there) is in force in the
   * validator cache: its signing key resolves to that member, which is listed.
   */
  lemma AcceptedListDelegates(s: ListSubmission, staticKeys: set<PublicKey>, lists: map<PublicKey, PublisherList>,
                              pub: CacheState, validators: CacheState, now: nat, i: nat)
    requires pub.Valid() && validators.Valid()
    requires CheckList(s, lists, pub, now).disposition == ListDisposition.Accepted
    requires var ms := EmbeddedManifests(s.body.value.validators);
      i < |ms| && ms[i].masterKey in Members(s.body.value) && ms[i].Verify() && !ms[i].Revoked() &&
      (ms[i].masterKey in validators.manifests ==> validators.manifests[ms[i].masterKey].sequence < ms[i].sequence) &&
      (forall j :: 0 <= j < |ms| && j != i ==> ms[j].masterKey != ms[i].masterKey && ms[j].signingKey != ms[i].signingKey) &&
      KeyOnlyFor(validators, ms[i].masterKey, ms[i].signingKey)
    ensures var o := CheckList(s, lists, pub, now);
      var ms := EmbeddedManifests(s.body.value.validators);
      var r := ApplyListed(validators, ms, ListedKeys(staticKeys, o.lists));
      r.MasterKey(ms[i].signingKey) == ms[i].masterKey && r.SigningKey(ms[i].masterKey) == ms[i].signingKey &&
      r.MasterKey(ms[i].signingKey) in ListedKeys(staticKeys, o.lists)
  {
    var o := CheckList(s, lists, pub, now);
    var ms := EmbeddedManifests(s.body.value.validators);
    AcceptedListReplacesMembers(s, staticKeys, lists, pub, now, ms[i].masterKey);
    ApplyListedDelegates(validators, ms, ListedKeys(staticKeys, o.lists), i);
  }

  /**
   * An accepted list makes its members listed, and a key that only the
   * publisher's previous list named is no longer listed.
   */
  lemma AcceptedListReplacesMembers(s: ListSubmission, staticKeys: set<PublicKey>,
                                    lists: map<PublicKey, PublisherList>, pub: CacheState, now: nat, k: PublicKey)
    requires pub.Valid() && CheckList(s, lists, pub, now).disposition == ListDisposition.Accepted
    ensures var o := CheckList(s, lists, pub, now);
            k in Members(s.body.value) ==> k in ListedKeys(staticKeys, o.lists)
    ensures var o := CheckList(s, lists, pub, now);
            var master := s.manifest.value.masterKey;
            k !in Members(s.body.value) && k !in staticKeys &&
            (forall p :: p in lists && p != master ==> k !in lists[p].members) ==>
              k !in ListedKeys(staticKeys, o.lists)
  {
  }

  // ---------------------------------------------------------------------
  // Properties of the recomputation

  /** The trusted set `updateTrusted` computes from the stored lists at time `now`. */
  function Recompute(staticKeys: set<PublicKey>, lists: map<PublicKey, PublisherList>,
                     publishers: CacheState, validators: CacheState, now: nat): (t: set<PublicKey>)
    ensures forall k :: k in t ==> !validators.Revoked(k)
    ensures staticKeys - t == set k | k in staticKeys && validators.Revoked(k)
  {
    TrustedFrom(Candidates(staticKeys, ExpireLists(lists, now), publishers), validators)
  }

  /**
   * A key is trusted after recomputation exactly when its master key is not
   * revoked and it is a static key or a member of an unexpired, available
   * list of a publisher that is not revoked.
   */
  lemma PublishedMemberTrusted(staticKeys: set<PublicKey>, lists: map<PublicKey, PublisherList>,
                               publishers: CacheState, validators: CacheState, now: nat, k: PublicKey)
    ensures k in Recompute(staticKeys, lists, publishers, validators, now) <==>
              !validators.Revoked(k) &&
              (k in staticKeys ||
               exists p :: p in lists && lists[p].available && !(lists[p].expiration.Some? && lists[p].expiration.value <= now) &&
                           !publishers.Revoked(p) && k in lists[p].members)
  {
  }

  /** Recomputing twice at the same time changes nothing the second time. */
  lemma RecomputeIdempotent(staticKeys: set<PublicKey>, lists: map<PublicKey, PublisherList>,
                            publishers: CacheState, validators: CacheState, now: nat)
    ensures Recompute(staticKeys, ExpireLists(lists, now), publishers, validators, now) ==
            Recompute(staticKeys, lists, publishers, validators, now)
    ensures var t := Recompute(staticKeys, lists, publishers, validators, now);
            Changes(t, Recompute(staticKeys, ExpireLists(lists, now), publishers, validators, now)) == TrustChanges({}, {})
  {
    ExpireListsIdempotent(lists, now);
  }

  /**
   * With no static keys, once every list has expired nothing is trusted and
   * the quorum is the sentinel, whatever was seen.
   */
  lemma AllExpiredMaxQuorum(lists: map<PublicKey, PublisherList>, publishers: CacheState,
                            validators: CacheState, now: nat, seen: nat, minimum: Option<nat>)
    requires forall p :: p in lists ==> lists[p].expiration.Some? && lists[p].expiration.value <= now
    ensures Recompute({}, lists, publishers, validators, now) == {}
    ensures QuorumFor(|Recompute({}, lists, publishers, validators, now)|, seen, minimum) == MaxQuorum
  {
    var expired := ExpireLists(lists, now);
    assert PublishedMembers(expired, publishers) == {};
  }

  /**
   * Loading one more unrevoked static key and recomputing adds exactly that
   * key: it is reported as the only addition and nothing is removed.
   */
  lemma AddedStaticKeyOnlyAddition(staticKeys: set<PublicKey>, k: PublicKey, lists: map<PublicKey, PublisherList>,
                                   publishers: CacheState, validators: CacheState, now: nat)
    requires !validators.Revoked(k) && k !in Recompute(staticKeys, lists, publishers, validators, now)
    ensures Recompute(staticKeys + {k}, lists, publishers, validators, now) ==
            Recompute(staticKeys, lists, publishers, validators, now) + {k}
    ensures Changes(Recompute(staticKeys, lists, publishers, validators, now),
                    Recompute(staticKeys + {k}, lists, publishers, validators, now)) == TrustChanges({CalcNodeID(k)}, {})
  {
    var before := Recompute(staticKeys, lists, publishers, validators, now);
    var after := Recompute(staticKeys + {k}, lists, publishers, validators, now);
    assert after == before + {k};
    assert after - before == {k};
    assert NodeIDs({k}) == {CalcNodeID(k)};
  }

  /**
   * Expiring lists keeps their expirations, so `expires` reports the same
   * time before and after a recomputation that passes it.
   */
  lemma ExpiryKeepsExpirations(staticKeys: set<PublicKey>, lists: map<PublicKey, PublisherList>, now: nat)
    ensures ExpirationTimes(staticKeys, ExpireLists(lists, now)) == ExpirationTimes(staticKeys, lists)
    ensures SomeUnfetched(ExpireLists(lists, now)) <==> SomeUnfetched(lists)
  {
    var expired := ExpireLists(lists, now);
    if SomeUnfetched(lists) {
      var p :| p in lists && lists[p].expiration.None?;
      assert expired[p].expiration.None?;
    }
  }

  /**
   * A validator named by several publishers is trusted once: when every
   * available list names the same keys, and some trusted publisher's list is
   * available, the trusted set is those keys less the revoked ones, and one
   * identifier stands for each.
   */
  lemma SharedMembersCountedOnce(keys: set<PublicKey>, lists: map<PublicKey, PublisherList>,
                                 publishers: CacheState, validators: CacheState, now: nat, p: PublicKey)
    requires p in lists && !publishers.Revoked(p) && lists[p].available && lists[p].members == keys
    requires lists[p].expiration.Some? && now < lists[p].expiration.value
    requires forall q :: q in lists && lists[q].available ==> lists[q].members == keys
    ensures Recompute({}, lists, publishers, validators, now) == TrustedFrom(keys, validators)
    ensures |NodeIDs(Recompute({}, lists, publishers, validators, now))| == |TrustedFrom(keys, validators)|
  {
    var expired := ExpireLists(lists, now);
    assert expired[p].available;
    forall k | k in keys ensures k in PublishedMembers(expired, publishers) {
      assert expired[p].available && k in expired[p].members;
    }
    NodeIDsCardinality(Recompute({}, lists, publishers, validators, now));
  }
}
