/** Room codes: `generateRoomCode`, which builds a six-character code from
    `Math.random()` draws, and the `do … while (rooms[code])` loop of the
    create-room handler that retries until the code is unused. The random
    source is a parameter: each draw is a real in [0, 1), as `Math.random()`
    returns. */
module RoomCodes {
  import opened Common
  import opened Text

  /** The 36 characters a generated code is drawn from. */
  const Alphabet := "ABCDEFGHIJKLMNOPQRSTUVWXYZ0123456789"

  const CodeLength := 6

  /** The alphabet is exactly the class `[A-Z0-9]`. */
  lemma AlphabetIsCodeClass()
    ensures |Alphabet| == 36
    ensures forall k :: 0 <= k < |Alphabet| ==> IsCodeChar(Alphabet[k])
    ensures forall c :: IsCodeChar(c) ==> c in Alphabet
  {
    forall c | IsCodeChar(c) ensures c in Alphabet {
      var k := if 'A' <= c <= 'Z' then c as int - 'A' as int else 26 + c as int - '0' as int;
      assert Alphabet[k] == c;
    }
  }

  /** No character occurs twice in the alphabet: each sits at its own place
      among the letters and then the digits. */
  lemma AlphabetHasNoRepeats()
    ensures NoDup(Alphabet)
  {
    assert forall k :: 0 <= k < |Alphabet| ==>
      k == (if 'A' <= Alphabet[k] <= 'Z' then Alphabet[k] as int - 'A' as int else 26 + Alphabet[k] as int - '0' as int);
  }

  /** A value `Math.random()` can return. */
  predicate IsDraw(d: real) { 0.0 <= d < 1.0 }

  /** The six draws one call of `generateRoomCode` consumes. */
  predicate IsDrawBatch(ds: seq<real>) {
    |ds| == CodeLength && forall i :: 0 <= i < |ds| ==> IsDraw(ds[i])
  }

  /** `Math.floor(Math.random() * chars.length)`: always an index of the alphabet. */
  function Pick(d: real): (k: nat)
    requires IsDraw(d)
    ensures k < |Alphabet|
  {
    (d * 36.0).Floor
  }

  /** The code a batch of draws produces; always a well-formed room code. */
  function CodeOf(ds: seq<real>): (code: string)
    requires IsDrawBatch(ds)
    ensures MatchesRoomCode(code)
  {
    AlphabetIsCodeClass();
    seq(CodeLength, i requires 0 <= i < CodeLength => Alphabet[Pick(ds[i])])
  }

  /** `generateRoomCode()`: the loop appends one alphabet character per draw. */
  method GenerateRoomCode(ds: seq<real>) returns (code: string)
    requires IsDrawBatch(ds)
    ensures code == CodeOf(ds)
    ensures MatchesRoomCode(code)
  {
    code := "";
    for i := 0 to CodeLength
      invariant |code| == i
      invariant forall j :: 0 <= j < i ==> code[j] == Alphabet[Pick(ds[j])]
    {
      code := code + [Alphabet[Pick(ds[i])]];
    }
  }

  /** Every well-formed room code is produced by some batch of draws, so the
      generator's range is exactly the codes the create form accepts. */
  lemma EveryCodeIsReachable(code: string)
    requires MatchesRoomCode(code)
    ensures exists ds :: IsDrawBatch(ds) && CodeOf(ds) == code
  {
    AlphabetIsCodeClass();
    var idx := seq(CodeLength, i requires 0 <= i < CodeLength => IndexIn(Alphabet, code[i]));
    var ds := seq(CodeLength, i requires 0 <= i < CodeLength => idx[i] as real / 36.0);
    forall i | 0 <= i < CodeLength ensures Pick(ds[i]) == idx[i] {
      assert ds[i] * 36.0 == idx[i] as real;
    }
    assert CodeOf(ds) == code;
  }

  /** The position of `c` in `s`. */
  function IndexIn(s: string, c: char): (k: nat)
    requires c in s
    ensures k < |s| && s[k] == c
  {
    if s[0] == c then 0 else 1 + IndexIn(s[1..], c)
  }

  /** A finite supply of draw batches, one per attempt of the retry loop. */
  predicate AreDrawBatches(attempts: seq<seq<real>>) {
    forall i :: 0 <= i < |attempts| ==> IsDrawBatch(attempts[i])
  }

  /** Attempt `i` is the first whose code is not taken. */
  predicate FirstFreeAt(taken: set<string>, attempts: seq<seq<real>>, i: int)
    requires AreDrawBatches(attempts)
  {
    && 0 <= i < |attempts|
    && CodeOf(attempts[i]) !in taken
    && forall j :: 0 <= j < i ==> CodeOf(attempts[j]) in taken
  }

  /** The code the retry loop settles on: the code of the first attempt that
      is not taken, or None when every supplied attempt hits a taken code
      (the source's loop would then keep drawing). */
  function FirstFree(taken: set<string>, attempts: seq<seq<real>>): (r: Option<string>)
    requires AreDrawBatches(attempts)
    ensures r.Some? ==> MatchesRoomCode(r.value) && r.value !in taken
    ensures r.Some? ==> exists i :: FirstFreeAt(taken, attempts, i) && CodeOf(attempts[i]) == r.value
    ensures r.None? <==> forall i :: 0 <= i < |attempts| ==> CodeOf(attempts[i]) in taken
  {
    if attempts == [] then None
    else
      var code := CodeOf(attempts[0]);
      if code !in taken then
        assert FirstFreeAt(taken, attempts, 0);
        Some(code)
      else
        var rest := FirstFree(taken, attempts[1..]);
        assert forall i :: 1 <= i < |attempts| ==> attempts[i] == attempts[1..][i - 1];
        FirstFreeShifts(taken, attempts);
        rest
  }

  /** When the first attempt is taken, the first free attempt of the rest is
      the first free attempt of all, one place further on. */
  lemma FirstFreeShifts(taken: set<string>, attempts: seq<seq<real>>)
    requires AreDrawBatches(attempts) && |attempts| > 0 && CodeOf(attempts[0]) in taken
    ensures forall i :: FirstFreeAt(taken, attempts[1..], i) ==> FirstFreeAt(taken, attempts, i + 1)
  {
    forall i | FirstFreeAt(taken, attempts[1..], i) ensures FirstFreeAt(taken, attempts, i + 1) {
      forall j | 0 <= j < i + 1 ensures CodeOf(attempts[j]) in taken {
        if j > 0 {
          assert attempts[j] == attempts[1..][j - 1];
        }
      }
      assert attempts[i + 1] == attempts[1..][i];
    }
  }

  /** The retry loop: draw a code, and draw again while it is taken. */
  method PickFreshCode(taken: set<string>, attempts: seq<seq<real>>) returns (r: Option<string>)
    requires AreDrawBatches(attempts)
    ensures r == FirstFree(taken, attempts)
  {
    var i := 0;
    while i < |attempts|
      invariant 0 <= i <= |attempts|
      invariant FirstFree(taken, attempts) == FirstFree(taken, attempts[i..])
    {
      assert attempts[i..][1..] == attempts[i + 1..];
      var code := GenerateRoomCode(attempts[i]);
      if code !in taken {
        return Some(code);
      }
      i := i + 1;
    }
    r := None;
  }
}
