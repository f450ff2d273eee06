/** `generateChallenge` of the TypeScript version: the same search as the
    Python one, with an explicit `iterations` counter. */
module TsIndex {
  import opened Text
  import opened NonceSearch
  import PythonMain

  /** How a call ends: with the result record, or with the RangeError that
      `"0".repeat(difficulty)` throws for a negative count. */
  datatype Outcome = Returned(challenge: Challenge) | ThrewRangeError

  /** The search. `"0".repeat(difficulty)` is evaluated before the loop and
      throws on a negative difficulty; otherwise the model requires that
      some nonce solves the challenge, which is what makes the loop stop. */
  method GenerateChallenge(sha256Hex: HashFn, gameId: string, difficulty: int := DefaultDifficulty)
    returns (r: Outcome)
    requires difficulty >= 0 ==> exists w: nat :: Matches(sha256Hex, gameId, Zeros(difficulty), w)
    ensures difficulty < 0 <==> r == ThrewRangeError
    ensures r.Returned? ==> StartsWith(r.challenge.hash, Zeros(difficulty))
    ensures r.Returned? ==> r.challenge.hash == sha256Hex(HashInput(gameId, r.challenge.nonce))
    ensures r.Returned? ==> forall m: nat :: m < r.challenge.nonce ==> !Matches(sha256Hex, gameId, Zeros(difficulty), m)
    ensures r.Returned? ==> r.challenge.iterations == r.challenge.nonce + 1
    ensures r.Returned? ==> r.challenge == Solution(sha256Hex, gameId, Zeros(difficulty))
  {
    var nonce: nat := 0;
    var hashHex := "";
    var iterations: nat := 0;
    if difficulty < 0 {
      return ThrewRangeError;
    }
    var target := Zeros(difficulty);
    ghost var first := FirstNonce(sha256Hex, gameId, target);

    while true
      invariant iterations == nonce
      invariant nonce <= first
      invariant forall m: nat :: m < nonce ==> !Matches(sha256Hex, gameId, target, m)
      decreases first - nonce
    {
      var data := gameId + Decimal(nonce);
      hashHex := sha256Hex(data);
      iterations := iterations + 1;
      if StartsWith(hashHex, target) {
        break;
      }
      nonce := nonce + 1;
    }

    FirstNonceUnique(sha256Hex, gameId, target, nonce);
    r := Returned(Challenge(nonce, hashHex, iterations));
  }

  /** Without a difficulty argument the target is "0000". */
  lemma DefaultTarget()
    ensures Zeros(DefaultDifficulty) == "0000"
  {
  }

  /** For every difficulty both versions accept, they look for the same
      target and so report the same record. From IndexMin to -1 the Python
      version returns nonce 0 where this one throws; above IndexMax the
      Python version raises OverflowError. */
  lemma AgreesWithPython(sha256Hex: HashFn, gameId: string, difficulty: int)
    requires difficulty >= 0 ==> exists w: nat :: Matches(sha256Hex, gameId, Zeros(difficulty), w)
    ensures PythonMain.Target(difficulty).Repeated? ==>
      exists w: nat :: Matches(sha256Hex, gameId, PythonMain.Target(difficulty).text, w)
    ensures 0 <= difficulty <= PythonMain.IndexMax ==>
      Solution(sha256Hex, gameId, Zeros(difficulty)) == Solution(sha256Hex, gameId, PythonMain.Target(difficulty).text)
    ensures PythonMain.IndexMin <= difficulty < 0 ==>
      Solution(sha256Hex, gameId, PythonMain.Target(difficulty).text).nonce == 0
  {
    PythonMain.TargetIsZeros(difficulty);
    if PythonMain.IndexMin <= difficulty < 0 {
      PythonMain.NonPositiveDifficultySolvedAtOnce(sha256Hex, gameId, difficulty);
    }
  }
}
