/** `generate_challenge` of the Python version: a `while True` search that
    hashes the game id followed by each nonce from 0 upwards and stops at
    the first hash that starts with the target. */
module PythonMain {
  import opened Text
  import opened NonceSearch

  /** The range of an index-sized integer (`Py_ssize_t` on a 64-bit build),
      into which Python converts the count of a string repetition. */
  const IndexMin: int := -0x8000_0000_0000_0000
  const IndexMax: int := 0x7fff_ffff_ffff_ffff

  predicate FitsIndex(n: int)
  {
    IndexMin <= n <= IndexMax
  }

  /** What evaluating `"0" * difficulty` gives: the repeated text, or the
      OverflowError raised when the count does not fit an index. */
  datatype Repetition = Repeated(text: string) | RaisedOverflowError

  /** How a call of `generate_challenge` ends. */
  datatype Outcome = Returned(challenge: Challenge) | RaisedOverflow

  /** `"0" * difficulty`: a count outside the index range raises
      OverflowError; a count from IndexMin to 0 repeats the string zero
      times, giving the empty target. */
  function Target(difficulty: int): (r: Repetition)
    ensures r.Repeated? <==> FitsIndex(difficulty)
    ensures r.Repeated? ==> |r.text| == if difficulty < 0 then 0 else difficulty
    ensures r.Repeated? ==> forall i :: 0 <= i < |r.text| ==> r.text[i] == '0'
  {
    if !FitsIndex(difficulty) then RaisedOverflowError
    else if difficulty <= 0 then Repeated("")
    else Repeated(Zeros(difficulty))
  }

  /** Where it is built, the target is the run of zeros the difficulty
      names (none when the difficulty is negative). */
  lemma TargetIsZeros(difficulty: int)
    ensures 0 <= difficulty <= IndexMax ==> Target(difficulty) == Repeated(Zeros(difficulty))
    ensures IndexMin <= difficulty < 0 ==> Target(difficulty) == Repeated("")
  {
  }

  /** The search. Building the target raises before the loop when the
      difficulty does not fit an index. The loop has no bound in the
      source; the model requires that some nonce solves the challenge,
      which is what makes it stop. */
  method GenerateChallenge(sha256Hex: HashFn, gameId: string, difficulty: int := DefaultDifficulty)
    returns (r: Outcome)
    requires Target(difficulty).Repeated? ==>
      exists w: nat :: Matches(sha256Hex, gameId, Target(difficulty).text, w)
    ensures r == RaisedOverflow <==> !FitsIndex(difficulty)
    ensures r.Returned? ==> StartsWith(r.challenge.hash, Target(difficulty).text)
    ensures r.Returned? ==> r.challenge.hash == sha256Hex(HashInput(gameId, r.challenge.nonce))
    ensures r.Returned? ==>
      forall m: nat :: m < r.challenge.nonce ==> !Matches(sha256Hex, gameId, Target(difficulty).text, m)
    ensures r.Returned? ==> r.challenge.iterations == r.challenge.nonce + 1
    ensures r.Returned? ==> r.challenge == Solution(sha256Hex, gameId, Target(difficulty).text)
  {
    var nonce: nat := 0;
    var repetition := Target(difficulty);
    if repetition.RaisedOverflowError? {
      return RaisedOverflow;
    }
    var target := repetition.text;
    ghost var first := FirstNonce(sha256Hex, gameId, target);
    var hashHex: string;

    while true
      invariant nonce <= first
      invariant forall m: nat :: m < nonce ==> !Matches(sha256Hex, gameId, target, m)
      decreases first - nonce
    {
      var data := gameId + Decimal(nonce);
      hashHex := sha256Hex(data);
      if StartsWith(hashHex, target) {
        break;
      }
      nonce := nonce + 1;
    }

    FirstNonceUnique(sha256Hex, gameId, target, nonce);
    r := Returned(Challenge(nonce, hashHex, nonce + 1));
  }

  /** With a difficulty from IndexMin to zero, the first nonce already
      solves the challenge: nonce 0, one iteration. */
  lemma NonPositiveDifficultySolvedAtOnce(sha256Hex: HashFn, gameId: string, difficulty: int)
    requires IndexMin <= difficulty <= 0
    ensures Target(difficulty).Repeated?
    ensures exists w: nat :: Matches(sha256Hex, gameId, Target(difficulty).text, w)
    ensures Solution(sha256Hex, gameId, Target(difficulty).text).nonce == 0
    ensures Solution(sha256Hex, gameId, Target(difficulty).text).iterations == 1
  {
    TargetIsZeros(difficulty);
    EmptyTargetSolvedAtOnce(sha256Hex, gameId);
  }
}
