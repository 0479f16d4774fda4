/**
 * Math.random as an oracle: a fixed stream of draws in [0, 1) and a
 * counter of how many have been taken. The simulation's uses of randomness
 * are then stated exactly, in terms of which draws they consume.
 */
module Random {
  import opened JsNumbers

  class Rng {
    /** The k-th call of Math.random returns stream(k). */
    const stream: nat -> Unit
    /** How many draws have been taken so far. */
    var drawn: nat

    constructor (stream: nat -> Unit)
      ensures this.stream == stream && drawn == 0
    {
      this.stream := stream;
      drawn := 0;
    }

    /** One call of Math.random. */
    method Next() returns (r: Unit)
      modifies this
      ensures drawn == old(drawn) + 1
      ensures r == stream(old(drawn))
    {
      r := stream(drawn);
      drawn := drawn + 1;
    }
  }
}
