/** Expansion of a "minutes between trips" value into the minutes of one hour at which trips leave. */
module Frequency {
  import opened Common

  /** shift, shift + f, shift + 2f, ... for as long as the value is below 60. */
  function Offsets(f: int, shift: int): seq<int>
    requires f >= 1
    decreases 60 - shift
  {
    if shift >= 60 then [] else [shift] + Offsets(f, shift + f)
  }

  /** The value `calculateFrequencyMinutes(frequency, shift_min)` returns; None when the frequency is not in 1..60. */
  function FrequencyMinutes(frequency: int, shiftMin: int): (r: Option<seq<int>>)
    ensures r.None? <==> frequency < 1 || frequency > 60
  {
    if frequency > 60 || frequency < 1 then None else Some(Offsets(frequency, shiftMin))
  }

  method CalculateFrequencyMinutes(frequency: int, shiftMin: int) returns (minutes: Option<seq<int>>)
    ensures minutes == FrequencyMinutes(frequency, shiftMin)
  {
    if frequency > 60 || frequency < 1 {
      return None;
    }
    var ms := [];
    var current := shiftMin;
    while current < 60
      invariant ms + Offsets(frequency, current) == Offsets(frequency, shiftMin)
      decreases 60 - current
    {
      assert Offsets(frequency, current) == [current] + Offsets(frequency, current + frequency);
      assert ms + Offsets(frequency, current) == (ms + [current]) + Offsets(frequency, current + frequency);
      ms := ms + [current];
      current := current + frequency;
    }
    assert ms + [] == ms;
    minutes := Some(ms);
  }

  /**
   * The offsets are exactly the arithmetic progression shift + i·f cut off at 60: every element is
   * below 60, the next one would not be, and the list is empty exactly when shift >= 60.
   */
  lemma {:induction false} OffsetsProgression(f: int, shift: int)
    requires f >= 1
    ensures var r := Offsets(f, shift);
      && (forall i :: 0 <= i < |r| ==> r[i] == shift + i * f && r[i] < 60)
      && (r == [] <==> shift >= 60)
      && (r != [] ==> shift + |r| * f >= 60)
    decreases 60 - shift
  {
    if shift < 60 {
      var r := Offsets(f, shift);
      var tail := Offsets(f, shift + f);
      OffsetsProgression(f, shift + f);
      assert r == [shift] + tail;
      forall i | 1 <= i < |r|
        ensures r[i] == shift + i * f
      {
        assert r[i] == tail[i - 1] == shift + f + (i - 1) * f;
      }
      assert |r| * f == f + |tail| * f;
    }
  }

  /** The trip minutes strictly increase, so no minute is used twice within the hour. */
  lemma OffsetsIncreasing(f: int, shift: int, i: int, j: int)
    requires f >= 1
    requires 0 <= i < j < |Offsets(f, shift)|
    ensures Offsets(f, shift)[i] < Offsets(f, shift)[j]
  {
    OffsetsProgression(f, shift);
    assert j * f == i * f + (j - i) * f;
  }

  /** A frequency of 60 gives one trip per hour, on the shift minute. */
  lemma HourlyFrequency(shift: int)
    requires 0 <= shift < 60
    ensures FrequencyMinutes(60, shift) == Some([shift])
  {
    assert Offsets(60, shift + 60) == [];
    assert Offsets(60, shift) == [shift] + Offsets(60, shift + 60) == [shift];
  }

  /** Worked cases: 15 gives the quarter hours; 0 and 61 give no service. */
  lemma FrequencyExamples()
    ensures FrequencyMinutes(15, 0) == Some([0, 15, 30, 45])
    ensures FrequencyMinutes(60, 0) == Some([0])
    ensures FrequencyMinutes(61, 0) == None && FrequencyMinutes(0, 0) == None
  {
    assert Offsets(15, 60) == [];
    assert Offsets(15, 45) == [45];
    assert Offsets(15, 30) == [30, 45];
    assert Offsets(15, 15) == [15, 30, 45];
    assert Offsets(15, 0) == [0, 15, 30, 45];
    HourlyFrequency(0);
  }
}
