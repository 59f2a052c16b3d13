/**
 * System.Random.Shared as an oracle. Its draws are specified only by their range, and it
 * counts the calls made to it, so that a caller can be shown to draw nothing before its
 * argument checks pass.
 */
module Randomness {

  newtype byte = x: int | 0 <= x < 256

  /** What Random.Next(minValue, maxValue) may return: `minValue` when the two bounds are
      equal, otherwise a value in the half-open range [minValue, maxValue). */
  predicate InDraw(minValue: int, maxValue: int, r: int) {
    if minValue == maxValue then r == minValue else minValue <= r < maxValue
  }

  class RandomSource {
    /** The number of draws made so far. */
    var calls: nat
    /** Internal generator state; callers rely only on the contracts below. */
    var state: nat

    constructor (seed: nat)
      ensures calls == 0 && state == seed
    {
      calls := 0;
      state := seed;
    }

    /** Random.Next(minValue, maxValue); Next(maxValue) is Next(0, maxValue). */
    method Next(minValue: int, maxValue: int) returns (r: int)
      requires minValue <= maxValue
      modifies this
      ensures InDraw(minValue, maxValue, r)
      ensures calls == old(calls) + 1
    {
      r := if minValue == maxValue then minValue else minValue + state % (maxValue - minValue);
      state := (state * 1103515245 + 12345) % 0x8000_0000;
      calls := calls + 1;
    }

    /** Random.NextBytes(buffer): overwrites every element of `buffer` with some byte. */
    method NextBytes(buffer: array<byte>)
      modifies this, buffer
      ensures calls == old(calls) + 1
    {
      forall i | 0 <= i < buffer.Length {
        buffer[i] := ((state + i) % 256) as byte;
      }
      state := (state * 1103515245 + 12345) % 0x8000_0000;
      calls := calls + 1;
    }
  }
}
