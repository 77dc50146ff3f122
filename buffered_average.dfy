/**
 * BufferedAverageDouble: the average of the last BufferLength values, kept
 * in a ring buffer and updated by subtracting the overwritten value's share
 * and adding the new one's. Values are reals: the double rounding of the
 * running update is not modelled.
 */
module BufferedAverages {
  import opened Wrappers
  import opened Exceptions

  function Sum(s: seq<real>): real {
    if s == [] then 0.0 else Sum(s[..|s| - 1]) + s[|s| - 1]
  }

  lemma {:induction false} SumAppend(a: seq<real>, b: seq<real>)
    ensures Sum(a + b) == Sum(a) + Sum(b)
    decreases |b|
  {
    if b == [] {
      assert a + b == a;
    } else {
      assert (a + b)[..|a + b| - 1] == a + b[..|b| - 1];
      SumAppend(a, b[..|b| - 1]);
    }
  }

  /** Overwriting one slot changes the sum by the difference of the two values. */
  lemma SumUpdate(s: seq<real>, i: int, v: real)
    requires 0 <= i < |s|
    ensures Sum(s[i := v]) == Sum(s) - s[i] + v
  {
    assert s == s[..i] + [s[i]] + s[i + 1..];
    assert s[i := v] == s[..i] + [v] + s[i + 1..];
    SumAppend(s[..i] + [s[i]], s[i + 1..]);
    SumAppend(s[..i], [s[i]]);
    SumAppend(s[..i] + [v], s[i + 1..]);
    SumAppend(s[..i], [v]);
    assert Sum([s[i]]) == s[i] && Sum([v]) == v;
  }

  lemma {:induction false} SumZeros(s: seq<real>)
    requires forall i :: 0 <= i < |s| ==> s[i] == 0.0
    ensures Sum(s) == 0.0
    decreases |s|
  {
    if s != [] {
      SumZeros(s[..|s| - 1]);
    }
  }

  /** The running update keeps the average equal to the sum over the length. */
  lemma AverageStep(average: real, sum: real, prev: real, value: real, length: real)
    requires length > 0.0 && average == sum / length
    ensures average - prev / length + value / length == (sum - prev + value) / length
  {
  }

  class BufferedAverageDouble {
    const buffer: array<real>
    var nextIndex: int
    var average: real

    /** The index stays in the buffer and the average is the buffer's mean. */
    predicate Valid()
      reads this, buffer
    {
      buffer.Length > 1
      && 0 <= nextIndex < buffer.Length
      && average == Sum(buffer[..]) / buffer.Length as real
    }

    /** BufferLength: the size of the buffer, fixed at construction. */
    function BufferLength(): (n: int)
      ensures n == buffer.Length
    {
      buffer.Length
    }

    /** The constructor for a length above 1: an all-zero buffer, index 0, average 0. */
    constructor(bufferLength: int)
      requires bufferLength > 1
      ensures Valid() && fresh(buffer) && buffer.Length == bufferLength
      ensures forall i :: 0 <= i < bufferLength ==> buffer[i] == 0.0
      ensures nextIndex == 0 && average == 0.0
    {
      buffer := new real[bufferLength](_ => 0.0);
      nextIndex := 0;
      average := 0.0;
      new;
      SumZeros(buffer[..]);
    }

    /**
     * AddValue: the value overwrites the slot at the index, the average
     * drops the old value's share and gains the new one's, and the index
     * moves on cyclically.
     */
    method AddValue(value: real)
      requires Valid()
      modifies this, buffer
      ensures Valid()
      ensures buffer[..] == old(buffer[..])[old(nextIndex) := value]
      ensures nextIndex == (old(nextIndex) + 1) % buffer.Length
      ensures average == old(average) - old(buffer[nextIndex]) / buffer.Length as real + value / buffer.Length as real
    {
      var prev := buffer[nextIndex];
      SumUpdate(buffer[..], nextIndex, value);
      AverageStep(average, Sum(buffer[..]), prev, value, buffer.Length as real);
      buffer[nextIndex] := value;
      average := average - prev / buffer.Length as real;
      average := average + value / buffer.Length as real;
      nextIndex := nextIndex + 1;
      nextIndex := nextIndex % buffer.Length;
    }
  }

  /** The constructor's check: a length of 1 or less throws ArgumentOutOfRangeException. */
  method NewBufferedAverage(bufferLength: int) returns (r: Result<BufferedAverageDouble, Exception>)
    ensures bufferLength <= 1 <==> r == Failure(ArgumentOutOfRange("bufferLength"))
    ensures r.Success? ==> fresh(r.value) && fresh(r.value.buffer) && r.value.Valid()
    ensures r.Success? ==> r.value.BufferLength() == bufferLength && r.value.average == 0.0
  {
    if bufferLength <= 1 {
      return Failure(ArgumentOutOfRange("bufferLength"));
    }
    var b := new BufferedAverageDouble(bufferLength);
    return Success(b);
  }
}
