/** The textual ids of lib/snowflake/id.go. */
module SnowflakeId {
  import opened Lexicographic

  const LIMITER_LENGTH: nat := 19
  const MAX_ID: nat := 0x8000_0000_0000_0000

  /** GenerateID from the node's number on: zeros in front up to 19 characters. */
  method PadID(id: nat) returns (result: string)
    ensures result == Padded(id, LIMITER_LENGTH)
  {
    result := Digits(id);
    if |result| < LIMITER_LENGTH {
      var n := LIMITER_LENGTH - |result|;
      var buf := "";
      for i := 0 to n
        invariant buf == Zeros(i)
      {
        buf := buf + "0";
      }
      result := buf + result;
    }
  }

  lemma Pow10At19()
    ensures MAX_ID < Pow10(LIMITER_LENGTH)
  {
    assert Pow10(4) == 10000;
    assert Pow10(8) == 10000 * Pow10(4);
    assert Pow10(12) == 10000 * Pow10(8);
    assert Pow10(16) == 10000 * Pow10(12);
    assert Pow10(19) == 1000 * Pow10(16);
  }

  /** The text of an id is 19 decimal digits that read as the id. */
  lemma IdReadsBack(a: nat)
    requires a < MAX_ID
    ensures |Padded(a, LIMITER_LENGTH)| == LIMITER_LENGTH && IsNumeral(Padded(a, LIMITER_LENGTH))
    ensures ReadDecimal(Padded(a, LIMITER_LENGTH)) == a
  {
    Pow10At19();
    PaddedReads(a, LIMITER_LENGTH);
  }

  /** All ids of the generator have 19 characters, differ when the numbers differ, and sort as text
      exactly as the numbers sort. */
  lemma IdsSortAsNumbers(a: nat, b: nat)
    requires a < MAX_ID && b < MAX_ID
    ensures |Padded(a, LIMITER_LENGTH)| == LIMITER_LENGTH
    ensures Padded(a, LIMITER_LENGTH) == Padded(b, LIMITER_LENGTH) <==> a == b
    ensures Less(Padded(a, LIMITER_LENGTH), Padded(b, LIMITER_LENGTH)) <==> a < b
  {
    Pow10At19();
    PaddedIsFixed(a, LIMITER_LENGTH);
    PaddedIsFixed(b, LIMITER_LENGTH);
    FixedOrder(a, b, LIMITER_LENGTH);
  }
}
