/**
  The workload's proof of possession (internal/executionproof/proof.go, registry.go): its
  claims, the key registry, and the nonce store that refuses a second use of one proof.
 */
module ExecutionProof {
  import opened CanonicalAction
  import opened Permits
  import Utf8

  /** Raw Ed25519 public key bytes. */
  type PublicKey = Bytes

  // ---------------------------------------------------------------- claims

  datatype ProofClaims = ProofClaims(
    permitID: string,
    actionDigest: string,
    httpMethod: string,
    httpPath: string,
    issuedAt: int,
    nonce: string)

  predicate IsNonceChar(c: char) {
    'a' <= c <= 'z' || 'A' <= c <= 'Z' || '0' <= c <= '9' || c == '.' || c == '_' || c == '~' || c == '-'
  }

  predicate ValidProof(p: ProofClaims) {
    && p.permitID != "" && Utf8.Size(p.permitID) <= 160
    && IsDigest(p.actionDigest)
    && p.httpMethod == "POST" && p.httpPath == "/mcp"
    && p.issuedAt > 0
    && p.nonce != "" && Utf8.Size(p.nonce) <= 256 && forall i | 0 <= i < |p.nonce| :: IsNonceChar(p.nonce[i])
  }

  /** isSHA256Thumbprint. */
  method CheckThumbprint(s: string) returns (ok: bool)
    ensures ok <==> IsDigest(s)
  {
    if |s| != 71 || !("sha256:" <= s) {
      return false;
    }
    var i := 7;
    while i < |s|
      invariant 7 <= i <= |s|
      invariant forall j | 7 <= j < i :: IsLowerHex(s[j])
    {
      if !('0' <= s[i] <= '9' || 'a' <= s[i] <= 'f') {
        return false;
      }
      i := i + 1;
    }
    return true;
  }

  /** Claims.Validate of a proof. */
  method ValidateProof(p: ProofClaims) returns (ok: bool)
    ensures ok <==> ValidProof(p)
  {
    hide IsDigest;
    if p.permitID == "" || Utf8.Size(p.permitID) > 160 {
      return false;
    }
    var digest := CheckThumbprint(p.actionDigest);
    if !digest || p.httpMethod != "POST" || p.httpPath != "/mcp" {
      return false;
    }
    if p.issuedAt <= 0 || p.nonce == "" || Utf8.Size(p.nonce) > 256 {
      return false;
    }
    var i := 0;
    while i < |p.nonce|
      invariant i <= |p.nonce|
      invariant forall j | 0 <= j < i :: IsNonceChar(p.nonce[j])
    {
      var c := p.nonce[i];
      if !('a' <= c <= 'z' || 'A' <= c <= 'Z' || '0' <= c <= '9' || c in "._~-") {
        return false;
      }
      i := i + 1;
    }
    return true;
  }

  /** A presented proof: the key it names, its claims, and the key that signed them. */
  datatype ProofToken = Malformed | ProofToken(keyID: string, claims: ProofClaims, signer: PublicKey)

  /** Idealized signature verification, followed by the validation of the claims. */
  predicate VerifiesUnder(token: ProofToken, key: PublicKey) {
    token.ProofToken? && token.signer == key && ValidProof(token.claims)
  }

  // ---------------------------------------------------------------- key registry

  class Registry {
    var keys: map<string, PublicKey>

    constructor ()
      ensures keys == map[]
    {
      keys := map[];
    }

    /** A key id, once bound, is never bound to another key. */
    method Register(keyID: string, publicKey: PublicKey) returns (ok: bool)
      modifies this
      ensures ok <==> ValidKeyID(keyID) && |publicKey| == 32 && (keyID in old(keys) ==> old(keys)[keyID] == publicKey)
      ensures keys == if ok then old(keys)[keyID := publicKey] else old(keys)
      ensures forall k | k in old(keys) :: k in keys && keys[k] == old(keys)[k]
    {
      var valid := ValidateKeyID(keyID);
      if !valid || |publicKey| != 32 {
        return false;
      }
      if keyID in keys && keys[keyID] != publicKey {
        return false;
      }
      keys := keys[keyID := publicKey];
      return true;
    }
  }

  // ---------------------------------------------------------------- nonce store

  const PROOF_MAX_AGE := 30
  const PROOF_SKEW := 5

  type Nonces = map<string, int>

  /** The map key for a workload key and a nonce. */
  function Join(keyID: string, nonce: string): string { keyID + "\0" + nonce }

  function Evict(m: Nonces, now: int): Nonces { map k | k in m && m[k] > now :: m[k] }

  function Use(m: Nonces, keyID: string, nonce: string, now: int, expires: int): (Nonces, bool) {
    if keyID == "" || nonce == "" || expires <= now then (m, false)
    else if Join(keyID, nonce) in Evict(m, now) then (Evict(m, now), false)
    else (Evict(m, now)[Join(keyID, nonce) := expires], true)
  }

  /** A use passes exactly when key and nonce are given, the proof has not expired and no unexpired entry has both; then
      its entry is added.  What has expired is dropped, unless the use is refused before looking. */
  lemma UseExact(m: Nonces, keyID: string, nonce: string, now: int, expires: int)
    ensures var (after, ok) := Use(m, keyID, nonce, now, expires);
            var key, kept := keyID + "\0" + nonce, map k | k in m && m[k] > now :: m[k];
            && (ok <==> keyID != "" && nonce != "" && expires > now && (key in m ==> m[key] <= now))
            && after == (if ok then kept[key := expires]
                         else if keyID == "" || nonce == "" || expires <= now then m else kept)
  {
  }

  class NonceStore {
    var expires: Nonces

    constructor ()
      ensures expires == map[]
    {
      expires := map[];
    }

    method UseNonce(keyID: string, nonce: string, now: int, until: int) returns (ok: bool)
      modifies this
      ensures (expires, ok) == Use(old(expires), keyID, nonce, now, until)
    {
      if keyID == "" || nonce == "" || until <= now {
        return false;
      }
      var remaining := expires.Keys;
      while remaining != {}
        invariant remaining <= old(expires).Keys
        invariant forall k :: k in expires <==> k in old(expires) && (k in remaining || old(expires)[k] > now)
        invariant forall k | k in expires :: expires[k] == old(expires)[k]
      {
        var key :| key in remaining;
        if key in expires && expires[key] <= now {
          expires := expires - {key};
        }
        remaining := remaining - {key};
      }
      assert expires == Evict(old(expires), now);
      if Join(keyID, nonce) in expires {
        return false;
      }
      expires := expires[Join(keyID, nonce) := until];
      return true;
    }
  }

  /** The first NUL of a joined key stands right after the key id. */
  lemma FirstNul(keyID: string, nonce: string, joined: string)
    requires ValidKeyID(keyID) && joined == Join(keyID, nonce)
    ensures |joined| > |keyID| && joined[|keyID|] == '\0' && forall i | 0 <= i < |keyID| :: joined[i] != '\0'
    ensures joined[..|keyID|] == keyID && joined[|keyID| + 1..] == nonce
  {
    hide Utf8.Encode;
    forall i | 0 <= i < |keyID| ensures joined[i] != '\0' {
      assert joined[i] == keyID[i];
    }
  }

  /** Key ids contain no NUL, so the joined key determines both parts. */
  lemma JoinInjective(k: string, m: string, l: string, n: string)
    requires ValidKeyID(k) && ValidKeyID(l) && Join(k, m) == Join(l, n)
    ensures k == l && m == n
  {
    hide ValidKeyID;
    FirstNul(k, m, Join(k, m));
    FirstNul(l, n, Join(k, m));
  }

  // ---------------------------------------------------------------- runs of the nonce step

  /** One arrival at the nonce step: the proof's key, nonce and issue second, and the caller's clock reading. */
  datatype Attempt = Attempt(keyID: string, nonce: string, issuedAt: int, now: Time)
  {
    predicate SameProof(other: Attempt) {
      keyID == other.keyID && nonce == other.nonce && issuedAt == other.issuedAt
    }
  }

  /** The freshness test that every call passes before the nonce step. */
  predicate Fresh(a: Attempt) {
    && a.issuedAt * SECOND <= a.now + PROOF_SKEW * SECOND
    && a.now - a.issuedAt * SECOND <= PROOF_MAX_AGE * SECOND
  }

  predicate Arrives(a: Attempt) { ValidKeyID(a.keyID) && a.nonce != "" && Fresh(a) }

  /** The expiry that the nonce step gives to an attempt's entry, in seconds. */
  function Until(a: Attempt): int { a.issuedAt + PROOF_MAX_AGE + PROOF_SKEW }

  function Step(m: Nonces, a: Attempt): (Nonces, bool) {
    Use(m, a.keyID, a.nonce, UnixSeconds(a.now), Until(a))
  }

  ghost function NoncesAfter(run: seq<Attempt>, n: nat): Nonces
    requires n <= |run|
  {
    if n == 0 then map[] else Step(NoncesAfter(run, n - 1), run[n - 1]).0
  }

  lemma {:induction false} NoncesPrefix(run: seq<Attempt>, longer: seq<Attempt>, n: nat)
    requires n <= |run| && run <= longer
    ensures NoncesAfter(longer, n) == NoncesAfter(run, n)
  {
    if n > 0 {
      NoncesPrefix(run, longer, n - 1);
      assert longer[n - 1] == run[n - 1];
    }
  }

  ghost predicate PassesAt(run: seq<Attempt>, i: nat) {
    i < |run| && Step(NoncesAfter(run, i), run[i]).1
  }

  /** Every clock reading is less than five seconds behind every earlier one. */
  predicate SteadyClock(run: seq<Attempt>) {
    forall i, j | 0 <= i < j < |run| :: run[j].now > run[i].now - 5_000_000_000
  }

  /** No reading strictly between two attempts has reached the expiry of the first one's entry. */
  ghost predicate Kept(run: seq<Attempt>, i: nat, n: nat)
    requires i < n <= |run|
  {
    forall k | i < k < n :: UnixSeconds(run[k].now) < Until(run[i])
  }

  /** An entry stays, with its expiry, as long as no reading reaches the expiry. */
  lemma {:induction false} EntryPersists(run: seq<Attempt>, i: nat, n: nat)
    requires i < n <= |run| && PassesAt(run, i) && Kept(run, i, n)
    ensures var key := Join(run[i].keyID, run[i].nonce);
            key in NoncesAfter(run, n) && NoncesAfter(run, n)[key] == Until(run[i])
    decreases n
  {
    if i + 1 < n {
      EntryPersists(run, i, n - 1);
    }
  }

  /** No proof passes the nonce step twice while the clock is steady, in any interleaving. */
  lemma ProofUsedOnce(run: seq<Attempt>, i: nat, j: nat)
    requires (forall k | 0 <= k < |run| :: Arrives(run[k])) && SteadyClock(run)
    requires PassesAt(run, i) && PassesAt(run, j) && run[i].SameProof(run[j])
    ensures i == j
  {
    hide ValidKeyID;
    if i < j {
      SecondUseRefused(run, i, j);
    } else if j < i {
      SecondUseRefused(run, j, i);
    }
  }

  lemma SecondUseRefused(run: seq<Attempt>, i: nat, j: nat)
    requires i < j < |run| && (forall k | 0 <= k < |run| :: Arrives(run[k])) && SteadyClock(run)
    requires PassesAt(run, i) && run[i].SameProof(run[j])
    ensures !PassesAt(run, j)
  {
    hide ValidKeyID;
    assert Arrives(run[j]);
    forall k | i < k < j ensures UnixSeconds(run[k].now) < Until(run[i]) {
      assert run[j].now > run[k].now - 5_000_000_000;
    }
    EntryPersists(run, i, j);
  }

  /** Where an entry came from: an attempt whose expiry no reading has reached since. */
  ghost predicate EnteredBy(run: seq<Attempt>, n: nat, key: string, until: int, i: nat)
    requires n <= |run|
  {
    && i < n && PassesAt(run, i) && key == Join(run[i].keyID, run[i].nonce)
    && until == Until(run[i]) && Kept(run, i, n)
  }

  /** An arrival is refused exactly when a live entry holds its key, and is entered otherwise. */
  lemma ArrivalStep(m: Nonces, a: Attempt)
    requires Arrives(a)
    ensures var kept, key := Evict(m, UnixSeconds(a.now)), Join(a.keyID, a.nonce);
            Step(m, a) == if key in kept then (kept, false) else (kept[key := Until(a)], true)
  {
  }

  lemma {:induction false} EntryOrigin(run: seq<Attempt>, n: nat, key: string) returns (i: nat)
    requires n <= |run| && (forall k | 0 <= k < |run| :: Arrives(run[k]))
    requires key in NoncesAfter(run, n)
    ensures EnteredBy(run, n, key, NoncesAfter(run, n)[key], i)
  {
    hide ValidKeyID;
    ArrivalStep(NoncesAfter(run, n - 1), run[n - 1]);
    if PassesAt(run, n - 1) && key == Join(run[n - 1].keyID, run[n - 1].nonce) {
      i := n - 1;
    } else {
      i := EntryOrigin(run, n - 1, key);
    }
  }

  /** An earlier attempt with the same key and nonce passed, and no reading since, this one's included, has
      reached the expiry of its entry. */
  ghost predicate Repeats(run: seq<Attempt>, i: nat, j: nat)
    requires j < |run|
  {
    && i < j && PassesAt(run, i) && run[i].keyID == run[j].keyID && run[i].nonce == run[j].nonce
    && forall k | i < k <= j :: UnixSeconds(run[k].now) < Until(run[i])
  }

  /** A fresh proof is refused exactly when it repeats the key and nonce of an earlier pass whose entry no
      reading since has outlived. */
  lemma RefusedExactlyOnRepeat(run: seq<Attempt>, j: nat)
    requires j < |run| && forall k | 0 <= k < |run| :: Arrives(run[k])
    ensures !PassesAt(run, j) <==> exists i: nat :: Repeats(run, i, j)
  {
    hide ValidKeyID;
    ArrivalStep(NoncesAfter(run, j), run[j]);
    var key := Join(run[j].keyID, run[j].nonce);
    if !PassesAt(run, j) {
      var i := EntryOrigin(run, j, key);
      assert Arrives(run[i]);
      JoinInjective(run[i].keyID, run[i].nonce, run[j].keyID, run[j].nonce);
      assert Repeats(run, i, j);
    }
    forall i: nat | Repeats(run, i, j) ensures !PassesAt(run, j) {
      EntryPersists(run, i, j);
    }
  }

  lemma ReplayRun(a: Attempt, b: Attempt, c: Attempt)
    requires a == Attempt("k", "n", 100, 100 * SECOND) && b == Attempt("k", "m", 130, 135 * SECOND)
    requires c == Attempt("k", "n", 100, 130 * SECOND)
    ensures PassesAt([a, b, c], 0) && PassesAt([a, b, c], 2)
  {
    var run := [a, b, c];
    var first, second := Join("k", "n"), Join("k", "m");
    assert first[2] != second[2];
    hide Join;
    assert NoncesAfter(run, 0) == map[];
    assert Evict(map[], 100) == map[];
    assert NoncesAfter(run, 1) == Step(map[], a).0 == map[first := 135];
    assert Evict(map[first := 135], 135) == map[];
    assert NoncesAfter(run, 2) == Step(map[first := 135], b).0 == map[second := 165];
    assert first !in Evict(map[second := 165], 130);
  }

  /** The five seconds are exact: with one reading five seconds behind an earlier one, a proof passes twice. */
  lemma ReplayWhenClockFallsFiveSeconds()
    ensures exists run: seq<Attempt> ::
      && |run| == 3 && (forall k | 0 <= k < 3 :: Arrives(run[k]))
      && (forall i, j | 0 <= i < j < 3 :: run[j].now >= run[i].now - 5_000_000_000)
      && run[0].SameProof(run[2]) && PassesAt(run, 0) && PassesAt(run, 2)
  {
    var a := Attempt("k", "n", 100, 100 * SECOND);
    var b := Attempt("k", "m", 130, 135 * SECOND);
    var c := Attempt("k", "n", 100, 130 * SECOND);
    var run := [a, b, c];
    ReplayRun(a, b, c);
    assert Utf8.Encode("k") == Utf8.EncodeChar('k') + Utf8.Encode("");
    assert ValidKeyID("k");
    hide PassesAt, ValidKeyID;
    assert Arrives(run[0]) && Arrives(run[1]) && Arrives(run[2]);
    assert |run| == 3 && run[0].SameProof(run[2]);
  }
}
