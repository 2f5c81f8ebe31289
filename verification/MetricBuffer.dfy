/** The ring buffer behind each metric: internal/anomaly/detector.go. */
module MetricBuffer {
  import opened Common

  lemma SlotsDiffer(i: nat, j: nat, capacity: nat)
    requires i < j < i + capacity
    ensures i % capacity != j % capacity
  {
    var qi, qj := i / capacity, j / capacity;
    assert i == qi * capacity + i % capacity && j == qj * capacity + j % capacity;
    NoMultipleBetween(qj - qi, capacity);
    assert (qj - qi) * capacity == qj * capacity - qi * capacity;
  }

  lemma NoMultipleBetween(q: int, capacity: nat)
    ensures !(0 < q * capacity < capacity)
  {
    if q >= 1 {
      assert (q - 1) * capacity >= 0;
    } else {
      assert (-q) * capacity >= 0;
    }
  }

  class Buffer {
    var values: array<real>
    var times: array<int>
    var head: nat
    var size: nat
    const capacity: nat
    /** Everything ever pushed. */
    ghost var pushed: seq<(real, int)>

    ghost predicate Valid()
      reads this, values, times
    {
      && capacity > 0 && values.Length == times.Length == capacity
      && head == |pushed|
      && size == (if |pushed| < capacity then |pushed| else capacity)
      && forall i :: head - size <= i < head ==>
           values[i % capacity] == pushed[i].0 && times[i % capacity] == pushed[i].1
    }

    constructor (capacity: nat)
      requires capacity > 0
      ensures Valid() && pushed == [] && this.capacity == capacity && fresh(values) && fresh(times)
    {
      this.capacity := capacity;
      values := new real[capacity](_ => 0.0);
      times := new int[capacity](_ => 0);
      head, size, pushed := 0, 0, [];
    }

    method Push(value: real, timestamp: int)
      requires Valid()
      modifies this, values, times
      ensures Valid() && pushed == old(pushed) + [(value, timestamp)]
      ensures values == old(values) && times == old(times)
    {
      var idx := head % capacity;
      forall i: nat | head - size <= i < head && i + capacity > head ensures i % capacity != idx {
        SlotsDiffer(i, head, capacity);
      }
      values[idx] := value;
      times[idx] := timestamp;
      head := head + 1;
      if size < capacity {
        size := size + 1;
      }
      pushed := pushed + [(value, timestamp)];
    }

    /** The most recent values, oldest first. */
    method GetLast(n: nat) returns (result: seq<real>)
      requires Valid()
      ensures |result| == if n <= size then n else size
      ensures |result| <= |pushed|
      ensures forall i :: 0 <= i < |result| ==> result[i] == LastOf(pushed, |result|)[i].0
    {
      if size == 0 {
        return [];
      }
      var count := n;
      if count > size {
        count := size;
      }
      result := [];
      for i := 0 to count
        invariant |result| == i
        invariant forall j :: 0 <= j < i ==> result[j] == pushed[head - count + j].0
      {
        var idx := (head - count + i) % capacity;
        result := result + [values[idx]];
      }
    }
  }
}
