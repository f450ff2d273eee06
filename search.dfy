/** The specification both versions of the challenge search share: which
    nonces solve a challenge, the least of them, and the record a search
    reports for it. */
module NonceSearch {
  import opened Text

  /** SHA-256 of the UTF-8 bytes of a string, rendered as lowercase hex
      (`hashlib.sha256(data.encode()).hexdigest()` and
      `createHash("sha256").update(data).digest("hex")`). It is a library
      call, so the model takes it as a parameter and assumes nothing about
      it beyond being a function. */
  type HashFn = string -> string

  /** The difficulty both versions use when the caller gives none. */
  const DefaultDifficulty: nat := 4

  /** What a search reports (the elapsed time is not modelled). */
  datatype Challenge = Challenge(nonce: nat, hash: string, iterations: nat)

  /** The text that is hashed for a nonce: the game id followed by the
      nonce's decimal text, with no separator. */
  function HashInput(gameId: string, nonce: nat): (data: string)
    ensures |data| > |gameId|
    ensures data[..|gameId|] == gameId
    ensures data[|gameId|..] == Decimal(nonce)
  {
    gameId + Decimal(nonce)
  }

  /** Distinct nonces give distinct hash inputs: the hash input determines
      the nonce. */
  lemma HashInputInjective(gameId: string, m: nat, n: nat)
    requires HashInput(gameId, m) == HashInput(gameId, n)
    ensures m == n
  {
    DecimalRoundTrip(m);
    DecimalRoundTrip(n);
  }

  /** `nonce` solves the challenge: its hash starts with `target`. */
  predicate Matches(sha256Hex: HashFn, gameId: string, target: string, nonce: nat)
  {
    StartsWith(sha256Hex(HashInput(gameId, nonce)), target)
  }

  /** `nonce` is the least solving nonce. */
  ghost predicate IsFirstNonce(sha256Hex: HashFn, gameId: string, target: string, nonce: nat)
  {
    && Matches(sha256Hex, gameId, target, nonce)
    && forall m: nat :: m < nonce ==> !Matches(sha256Hex, gameId, target, m)
  }

  /** Whenever some nonce solves the challenge, a least one does. */
  lemma {:induction false} FirstNonceExists(sha256Hex: HashFn, gameId: string, target: string, w: nat)
    requires Matches(sha256Hex, gameId, target, w)
    ensures exists n: nat :: IsFirstNonce(sha256Hex, gameId, target, n)
    decreases w
  {
    if forall m: nat :: m < w ==> !Matches(sha256Hex, gameId, target, m) {
      assert IsFirstNonce(sha256Hex, gameId, target, w);
    } else {
      var m: nat :| m < w && Matches(sha256Hex, gameId, target, m);
      FirstNonceExists(sha256Hex, gameId, target, m);
    }
  }

  /** The least solving nonce, the one a search from 0 in steps of 1
      stops at. Defined whenever some nonce solves the challenge. */
  ghost function FirstNonce(sha256Hex: HashFn, gameId: string, target: string): (n: nat)
    requires exists w: nat :: Matches(sha256Hex, gameId, target, w)
    ensures Matches(sha256Hex, gameId, target, n)
    ensures forall m: nat :: m < n ==> !Matches(sha256Hex, gameId, target, m)
  {
    var w: nat :| Matches(sha256Hex, gameId, target, w);
    FirstNonceExists(sha256Hex, gameId, target, w);
    var n: nat :| IsFirstNonce(sha256Hex, gameId, target, n);
    n
  }

  /** Only one nonce is the least solving one. */
  lemma FirstNonceUnique(sha256Hex: HashFn, gameId: string, target: string, n: nat)
    requires Matches(sha256Hex, gameId, target, n)
    requires forall m: nat :: m < n ==> !Matches(sha256Hex, gameId, target, m)
    ensures n == FirstNonce(sha256Hex, gameId, target)
  {
  }

  /** The record a search from nonce 0 reports: the least solving nonce,
      its hash, and one iteration per nonce tried. It depends on nothing
      but the hash function, the game id and the target. */
  ghost function Solution(sha256Hex: HashFn, gameId: string, target: string): (c: Challenge)
    requires exists w: nat :: Matches(sha256Hex, gameId, target, w)
    ensures StartsWith(c.hash, target)
    ensures c.hash == sha256Hex(HashInput(gameId, c.nonce))
    ensures forall m: nat :: m < c.nonce ==> !Matches(sha256Hex, gameId, target, m)
    ensures c.iterations == c.nonce + 1
  {
    var n := FirstNonce(sha256Hex, gameId, target);
    Challenge(n, sha256Hex(HashInput(gameId, n)), n + 1)
  }

  /** An empty target is met by every hash, so the search stops at once. */
  lemma EmptyTargetSolvedAtOnce(sha256Hex: HashFn, gameId: string)
    ensures exists w: nat :: Matches(sha256Hex, gameId, "", w)
    ensures Solution(sha256Hex, gameId, "").nonce == 0
    ensures Solution(sha256Hex, gameId, "").iterations == 1
  {
    assert Matches(sha256Hex, gameId, "", 0);
    FirstNonceUnique(sha256Hex, gameId, "", 0);
  }

  /** Raising the difficulty never makes the search stop sooner. */
  lemma FirstNonceMonotone(sha256Hex: HashFn, gameId: string, k1: nat, k2: nat)
    requires k1 <= k2
    requires exists w: nat :: Matches(sha256Hex, gameId, Zeros(k2), w)
    ensures exists w: nat :: Matches(sha256Hex, gameId, Zeros(k1), w)
    ensures FirstNonce(sha256Hex, gameId, Zeros(k1)) <= FirstNonce(sha256Hex, gameId, Zeros(k2))
  {
    var n2 := FirstNonce(sha256Hex, gameId, Zeros(k2));
    StartsWithFewerZeros(sha256Hex(HashInput(gameId, n2)), k1, k2);
    assert Matches(sha256Hex, gameId, Zeros(k1), n2);
  }

  predicate IsLowerHex(c: char)
  {
    IsDigit(c) || 'a' <= c <= 'f'
  }

  /** The hex rendering of a SHA-256 digest: 64 lowercase hex characters. */
  ghost predicate IsHexDigest(sha256Hex: HashFn)
  {
    forall s: string ::
      && |sha256Hex(s)| == 64
      && forall i :: 0 <= i < 64 ==> IsLowerHex(sha256Hex(s)[i])
  }

  /** With a real hex digest, a difficulty above 64 has no solving nonce,
      so the search never finds one: it loops for ever, unless building
      the target already fails for a difficulty too large to allocate. */
  lemma NoSolutionAboveDigestLength(sha256Hex: HashFn, gameId: string, k: nat, n: nat)
    requires IsHexDigest(sha256Hex)
    requires k > 64
    ensures !Matches(sha256Hex, gameId, Zeros(k), n)
  {
  }
}
