/**
 * The rolling temperature history: two `deque(maxlen=60)` objects, one of
 * timestamps and one of temperatures, appended together once per cycle.
 * Timestamps and temperatures are Python floats; they are only stored and
 * handed back here, so they are modelled as reals.
 */
module RollingHistory {
  import opened RollingWindow

  /** Both deques keep the last 60 readings. */
  const Capacity: nat := 60

  /** A `collections.deque` created with a `maxlen`, as the loop uses it. */
  class BoundedDeque {
    const maxLen: nat
    var items: seq<real>

    ghost predicate Valid()
      reads this
    {
      |items| <= maxLen
    }

    constructor (maxLen: nat)
      ensures Valid() && this.maxLen == maxLen && items == []
    {
      this.maxLen := maxLen;
      items := [];
    }

    /**
     * `append`: the item goes on the right; if that makes the deque longer
     * than maxLen, the leftmost item is dropped.
     */
    method Append(x: real)
      requires Valid()
      modifies this
      ensures Valid()
      ensures items == Window(old(items) + [x], maxLen)
    {
      items := items + [x];
      if |items| > maxLen {
        items := items[1..];
      }
    }
  }

  /** The two parallel deques `time_data` and `temperature_data`. */
  class History {
    const timeData: BoundedDeque
    const temperatureData: BoundedDeque

    /** Two distinct deques of capacity 60, always of equal length. */
    ghost predicate Valid()
      reads this, timeData, temperatureData
    {
      && timeData != temperatureData
      && timeData.Valid() && temperatureData.Valid()
      && timeData.maxLen == Capacity && temperatureData.maxLen == Capacity
      && |timeData.items| == |temperatureData.items|
    }

    /** The stored (timestamp, temperature) pairs, oldest first: entry i of one deque with entry i of the other. */
    function Readings(): (r: seq<(real, real)>)
      reads this, timeData, temperatureData
      requires Valid()
      ensures |r| == |timeData.items| == |temperatureData.items| <= Capacity
      ensures forall i :: 0 <= i < |r| ==> r[i] == (timeData.items[i], temperatureData.items[i])
    {
      Zip(timeData.items, temperatureData.items)
    }

    constructor ()
      ensures Valid() && fresh(timeData) && fresh(temperatureData)
      ensures Readings() == []
    {
      timeData := new BoundedDeque(Capacity);
      temperatureData := new BoundedDeque(Capacity);
    }

    /**
     * One cycle's appends, `time_data.append(t)` then
     * `temperature_data.append(v)`: each deque is windowed on its own, and
     * the pairs stay aligned, so the history is the window of the old pairs
     * followed by (t, v).
     */
    method Record(t: real, v: real)
      requires Valid()
      modifies timeData, temperatureData
      ensures Valid()
      ensures timeData.items == Window(old(timeData.items) + [t], Capacity)
      ensures temperatureData.items == Window(old(temperatureData.items) + [v], Capacity)
      ensures Readings() == Window(old(Readings()) + [(t, v)], Capacity)
    {
      ghost var times, temps := timeData.items, temperatureData.items;
      timeData.Append(t);
      temperatureData.Append(v);
      ZipWindow(times + [t], temps + [v], Capacity);
      ZipAppend(times, temps, t, v);
    }
  }
}
