/** Room codes: six characters drawn from the upper-case letters and digits.
    The online client and the server generate them the same way. */
module RoomCode {

  const ALPHABET: string := "ABCDEFGHIJKLMNOPQRSTUVWXYZ0123456789"
  const CODE_LENGTH: nat := 6

  predicate IsCodeChar(c: char)
  {
    ('A' <= c <= 'Z') || ('0' <= c <= '9')
  }

  /** Position `k` of the alphabet: the letters first, then the digits. */
  lemma AlphabetAt(k: nat)
    requires k < |ALPHABET|
    ensures ALPHABET[k] as int == if k < 26 then 'A' as int + k else '0' as int + (k - 26)
  {
  }

  /** `chars.charAt(Math.floor(Math.random() * chars.length))`, where `draw`
      stands for the random integer; reducing it modulo 36 keeps every draw in range. */
  function CodeChar(draw: nat): (c: char)
    ensures IsCodeChar(c)
  {
    AlphabetAt(draw % |ALPHABET|);
    ALPHABET[draw % |ALPHABET|]
  }

  /** Where a code character sits in the alphabet. */
  function IndexOf(c: char): (k: nat)
    requires IsCodeChar(c)
    ensures k < |ALPHABET| && ALPHABET[k] == c
  {
    var k := if 'A' <= c <= 'Z' then c as int - 'A' as int else 26 + (c as int - '0' as int);
    AlphabetAt(k);
    k
  }

  /** The loop of `generateRoomCode`, one character per draw. */
  method GenerateRoomCode(draws: seq<nat>) returns (code: string)
    requires |draws| >= CODE_LENGTH
    ensures |code| == CODE_LENGTH
    ensures forall i :: 0 <= i < |code| ==> IsCodeChar(code[i]) && code[i] == CodeChar(draws[i])
  {
    code := "";
    var i := 0;
    while i < CODE_LENGTH
      invariant 0 <= i <= CODE_LENGTH && |code| == i
      invariant forall j :: 0 <= j < i ==> IsCodeChar(code[j]) && code[j] == CodeChar(draws[j])
    {
      code := code + [CodeChar(draws[i])];
      i := i + 1;
    }
  }

  /** Every six-character code over the alphabet is produced by some draws,
      so the generator can yield any code. */
  lemma EveryCodeReachable(code: string)
    requires |code| == CODE_LENGTH
    requires forall i :: 0 <= i < |code| ==> IsCodeChar(code[i])
    ensures exists draws: seq<nat> :: |draws| == CODE_LENGTH
              && forall i :: 0 <= i < CODE_LENGTH ==> CodeChar(draws[i]) == code[i]
  {
    var draws: seq<nat> := seq(CODE_LENGTH, i requires 0 <= i < CODE_LENGTH => IndexOf(code[i]));
    forall i | 0 <= i < CODE_LENGTH ensures CodeChar(draws[i]) == code[i] {
      DrawOfIndex(code[i]);
    }
    assert |draws| == CODE_LENGTH && forall i :: 0 <= i < CODE_LENGTH ==> CodeChar(draws[i]) == code[i];
  }

  lemma DrawOfIndex(c: char)
    requires IsCodeChar(c)
    ensures CodeChar(IndexOf(c)) == c
  {
    var k := IndexOf(c);
    assert k % |ALPHABET| == k;
  }
}
