# Proof-of-work challenge search

A model of the proof-of-work nonce search of a game client's anti-cheat
handshake, written twice in the repository: `generate_challenge` in
`examples/python/main.py` and `generateChallenge` in `examples/ts/index.ts`.
Both build a target of `difficulty` `'0'` characters, then hash the game id
followed by the decimal text of the nonce (0, 1, 2, ...) until the lowercase
hex SHA-256 digest starts with the target, and report the nonce, the digest
and the iteration count.

Files:

- `text.dfy` (module `Text`): the run of zeros that forms the target, the
  prefix test, the count of leading zeros, and the decimal text of a nonce
  with its parser as a round-trip partner.
- `search.dfy` (module `NonceSearch`): the hash function as a parameter, the
  result record, which nonces solve a challenge, the least of them
  (`FirstNonce`) and the record a search from 0 reports (`Solution`).
- `python_main.dfy` (module `PythonMain`): `"0" * difficulty` and the
  `while True` search.
- `ts_index.dfy` (module `TsIndex`): the `while (true)` search with its
  `iterations` counter, and its RangeError on a negative difficulty.

SHA-256 of the UTF-8 bytes rendered as lowercase hex is a library call. It
is passed to both searches as a parameter `sha256Hex: string -> string`,
and nothing is assumed of it. Both searches are proved to return exactly
`Solution(sha256Hex, gameId, target)`: the least solving nonce, its digest,
and `nonce + 1` iterations. That makes the result deterministic, and makes
the two versions agree wherever both return.

The two versions differ below zero. Python's `"0" * difficulty` is the
empty string for a difficulty from -2^63 to -1, so the search stops at
nonce 0. Outside -2^63 .. 2^63-1 the repeat count does not fit a 64-bit
index, and Python raises OverflowError before the loop starts;
`PythonMain.GenerateChallenge` returns `RaisedOverflow` there. JavaScript's `"0".repeat(difficulty)` throws a RangeError for a negative
count, so `generateChallenge` throws before the loop starts.
`TsIndex.GenerateChallenge` returns `ThrewRangeError` there, and
`TsIndex.AgreesWithPython` states both halves.

## Model

| member | source | states |
|---|---|---|
| `Text.Zeros` | examples/ts/index.ts:16 | the target for a difficulty k has length k and every character is '0' |
| `Text.StartsWithZerosIff` | examples/python/main.py:35-36 | a digest starts with k zeros exactly when its run of leading zeros is at least k long |
| `Text.StartsWithFewerZeros` | examples/python/main.py:35-36 | a digest that meets a difficulty meets every smaller difficulty |
| `Text.Decimal` | examples/python/main.py:28 | the nonce's text is non-empty, all decimal digits, and has no leading zero unless it is "0" |
| `Text.DecimalRoundTrip` | examples/python/main.py:28 | parsing the decimal text of a nonce gives the nonce back |
| `Text.StartsWith` | examples/python/main.py:35 | `s.startswith(p)` holds exactly when `p` is no longer than `s` and agrees with it at every position |
| `NonceSearch.HashInput` | examples/python/main.py:28 | the hashed text is the game id followed by the nonce's decimal text, with no separator |
| `NonceSearch.HashInputInjective` | examples/ts/index.ts:22 | two different nonces never give the same hash input `gameId + nonce` |
| `NonceSearch.Solution` | examples/python/main.py:42-47 | the reported record's hash starts with the target and is the digest of the nonce's hash input; every smaller nonce fails; `iterations == nonce + 1` |
| `NonceSearch.FirstNonceExists` | examples/python/main.py:22-39 | if any nonce solves the challenge, a least solving nonce exists |
| `NonceSearch.FirstNonce` | examples/python/main.py:22-39 | the first nonce solves the challenge and every smaller nonce fails |
| `NonceSearch.FirstNonceUnique` | examples/python/main.py:26-39 | a solving nonce with no smaller solving nonce is the first nonce, so the search result is unique |
| `NonceSearch.EmptyTargetSolvedAtOnce` | examples/python/main.py:35-36 | with an empty target, nonce 0 solves the challenge and the result has one iteration |
| `NonceSearch.FirstNonceMonotone` | examples/python/main.py:23-36 | raising the difficulty never lowers the first solving nonce |
| `NonceSearch.NoSolutionAboveDigestLength` | examples/python/main.py:31-36 | if the digest is always 64 lowercase hex characters, no nonce solves a difficulty above 64 |
| `PythonMain.Target` | examples/python/main.py:23 | `"0" * difficulty` raises OverflowError exactly when the difficulty is outside -2^63 .. 2^63-1; otherwise it is all zeros, of length `difficulty`, or empty when the difficulty is negative |
| `PythonMain.TargetIsZeros` | examples/python/main.py:23 | the Python target equals the run of `difficulty` zeros for a difficulty from 0 to 2^63-1, and is empty from -2^63 to -1 |
| `PythonMain.GenerateChallenge` | examples/python/main.py:11-47 | raises OverflowError exactly when the difficulty is outside -2^63 .. 2^63-1; otherwise the returned hash starts with the target and is the digest of `game_id + str(nonce)`; every smaller nonce fails; `iterations == nonce + 1`; the record equals `Solution` for the inputs |
| `PythonMain.NonPositiveDifficultySolvedAtOnce` | examples/python/main.py:22-45 | with a difficulty from -2^63 to 0, the result is nonce 0 with 1 iteration |
| `TsIndex.GenerateChallenge` | examples/ts/index.ts:9-39 | throws RangeError exactly when the difficulty is negative; otherwise the same guarantees as the Python search, with the loop invariant `iterations == nonce` |
| `TsIndex.DefaultTarget` | examples/ts/index.ts:11-16 | when no difficulty is given, the target is "0000" |
| `TsIndex.AgreesWithPython` | examples/ts/index.ts:13-38 | for a difficulty from 0 to 2^63-1, both versions search for the same target and report the same record; from -2^63 to -1, Python reports nonce 0 |

## Left out

- `PythonMain.GenerateChallenge`: requires that some nonce solves the challenge whenever the target is built. When none does, for example when the difficulty exceeds the 64-character digest (see `NonceSearch.NoSolutionAboveDigestLength`), the source loops for ever, or raises MemoryError at `examples/python/main.py:23` when the target is too large to allocate. Termination is not modelled beyond this.
- `TsIndex.GenerateChallenge`: has the same requirement for a non-negative difficulty, for the same reason.
- SHA-256, the UTF-8 encoding and the hex rendering are foreign library calls. They are a function parameter. The fact that the digest is 64 lowercase hex characters is used only as a hypothesis (`NonceSearch.IsHexDigest`).
- Game ids are sequences of Unicode scalar values. Lone surrogates are not modelled: Python's `data.encode()` raises UnicodeEncodeError on them, and Node's `update(data)` replaces them with U+FFFD and keeps searching. `TsIndex.AgreesWithPython` covers only well-formed game ids.
- `time_taken` / `timeTaken`: wall-clock time is nondeterministic I/O and is not in the result record.
- `encrypt_payload` / `encryptPayload`: base64 decoding, PEM key parsing and RSAES-OAEP with SHA-256 and MGF1 are library calls with randomised output. The catch-all that returns `None`/`null` adds no logic of its own.
- The example-usage blocks (`examples/python/main.py:80-114`, `examples/ts/index.ts:67-97`) only build a dictionary, serialise it and print it.
- JavaScript numbers: the nonce is a `nat`. Precision loss above 2^53 is not modelled, nor exponent notation in number-to-string conversion at 10^21 and above. A non-integer or infinite `difficulty` is also not modelled. Neither is the RangeError `repeat` throws when the result would exceed the maximum string length.
- `PythonMain.Target`: the MemoryError that `"0" * difficulty` raises when the target is too large to allocate is not modelled, because the limit depends on the machine. The model builds the target for every difficulty from 0 to 2^63-1. The range of the count assumes a 64-bit build.
- `str(nonce)` at `examples/python/main.py:28`: on Python 3.11 and later it raises ValueError once the nonce has more than 4300 digits. This limit is not modelled.
- Python's `difficulty` is an `int`. Other types that support `"0" * x` (such as `bool`) are not modelled.
