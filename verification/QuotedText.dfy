/** What stands between double quotes, where a backslash takes the character behind it along. */
module QuotedText {

  /** A character, or a backslash with the one behind it. */
  datatype Bit = Char(c: char) | Pair(c: char)

  predicate GoodBit(bit: Bit) {
    bit.Char? ==> bit.c != '"' && bit.c != '\\'
  }

  predicate GoodBits(bits: seq<Bit>) {
    forall k | 0 <= k < |bits| :: GoodBit(bits[k])
  }

  function BitWritten(bit: Bit): string {
    match bit
    case Char(c) => [c]
    case Pair(c) => ['\\', c]
  }

  function BitsWritten(bits: seq<Bit>): string {
    if bits == [] then "" else BitWritten(bits[0]) + BitsWritten(bits[1..])
  }

  lemma JoinThree(a: string, b: string, c: string)
    ensures a + (b + c) == a + b + c
  {
  }

  /** What stands behind an opening quote: pairs and characters up to the closing quote or the end. */
  lemma {:induction false} FindBits(t: string) returns (bits: seq<Bit>, rest: string)
    ensures GoodBits(bits) && t == BitsWritten(bits) + rest
    ensures rest == "" || rest == "\\" || rest[0] == '"'
    decreases |t|
  {
    if t == "" || t[0] == '"' || t == "\\" {
      bits, rest := [], t;
      assert BitsWritten([]) + t == t;
    } else {
      var bit := if t[0] == '\\' then Pair(t[1]) else Char(t[0]);
      var n := |BitWritten(bit)|;
      var more;
      more, rest := FindBits(t[n..]);
      bits := [bit] + more;
      assert bits[1..] == more;
      assert t[..n] == BitWritten(bit) && t == t[..n] + t[n..];
      JoinThree(BitWritten(bit), BitsWritten(more), rest);
    }
  }
}
