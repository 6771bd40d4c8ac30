/** Two-pass sample retrieval of src/astl_telemetry.cpp: a counting pass, a copying pass, the required count. */
module SampleRetrieval {
  import opened Common

  const UINT32_MAX := 0xFFFF_FFFF

  /** A processed sample: its time point, which the API reads as an unsigned 64-bit count, and its value. */
  datatype Sample = Sample(time: int, value: int)

  datatype AstlSample = AstlSample(timestamp: nat, value: int)

  datatype Status = Success | BufferTooSmall | Failure(code: int)

  function Timestamp(s: Sample): nat {
    s.time % 0x1_0000_0000_0000_0000
  }

  /** A zero bound is no bound. */
  predicate IsWithin(s: Sample, startTs: nat, endTs: nat) {
    !(startTs != 0 && Timestamp(s) < startTs) && !(endTs != 0 && Timestamp(s) > endTs)
  }

  function Convert(s: Sample): AstlSample {
    AstlSample(Timestamp(s), s.value)
  }

  /** The samples of the range, converted, in order: what a retrieval is to write. */
  function Wanted(samples: seq<Sample>, startTs: nat, endTs: nat): (r: seq<AstlSample>)
    ensures |r| <= |samples|
  {
    if samples == [] then []
    else
      var n := |samples| - 1;
      Wanted(samples[..n], startTs, endTs)
      + (if IsWithin(samples[n], startTs, endTs) then [Convert(samples[n])] else [])
  }

  function Flatten(batches: seq<seq<Sample>>): seq<Sample> {
    if batches == [] then [] else Flatten(batches[..|batches| - 1]) + batches[|batches| - 1]
  }

  lemma {:induction false} WantedAppend(a: seq<Sample>, b: seq<Sample>, startTs: nat, endTs: nat)
    ensures Wanted(a + b, startTs, endTs) == Wanted(a, startTs, endTs) + Wanted(b, startTs, endTs)
    decreases |b|
  {
    if b == [] {
      assert a + b == a;
    } else {
      var n := |b| - 1;
      assert (a + b)[..|a| + n] == a + b[..n];
      WantedAppend(a, b[..n], startTs, endTs);
    }
  }

  /** A range holds exactly the samples between its bounds, both included. */
  lemma {:induction false} WantedAreWithin(samples: seq<Sample>, startTs: nat, endTs: nat)
    ensures forall x :: x in Wanted(samples, startTs, endTs) <==>
              exists i :: 0 <= i < |samples|
                          && x == AstlSample(samples[i].time % 0x1_0000_0000_0000_0000, samples[i].value)
                          && startTs <= x.timestamp && (endTs == 0 || x.timestamp <= endTs)
  {
    if samples != [] {
      var n := |samples| - 1;
      WantedAreWithin(samples[..n], startTs, endTs);
      assert samples == samples[..n] + [samples[n]];
    }
  }

  /** The converted samples keep their order: the one at `i` stands behind those wanted of the samples before. */
  lemma {:induction false} WantedInOrder(samples: seq<Sample>, startTs: nat, endTs: nat, i: nat)
    requires i < |samples|
    ensures var before, x := Wanted(samples[..i], startTs, endTs), AstlSample(Timestamp(samples[i]), samples[i].value);
            Wanted(samples[..i + 1], startTs, endTs)
            == before + (if startTs <= x.timestamp && (endTs == 0 || x.timestamp <= endTs) then [x] else [])
    ensures Wanted(samples[..i + 1], startTs, endTs) <= Wanted(samples, startTs, endTs)
  {
    assert samples[..i + 1][..i] == samples[..i];
    assert samples == samples[..i + 1] + samples[i + 1..];
    WantedAppend(samples[..i + 1], samples[i + 1..], startTs, endTs);
  }

  /** Adjacent ranges share out the samples: none is lost and none is delivered twice. */
  lemma {:induction false} AdjacentRanges(samples: seq<Sample>, startTs: nat, middle: nat, endTs: nat)
    requires startTs <= middle && 0 < middle && (endTs == 0 || middle < endTs)
    ensures multiset(Wanted(samples, startTs, middle)) + multiset(Wanted(samples, middle + 1, endTs))
            == multiset(Wanted(samples, startTs, endTs))
  {
    if samples != [] {
      var n := |samples| - 1;
      AdjacentRanges(samples[..n], startTs, middle, endTs);
      RangesShareOut(samples[n], startTs, middle, endTs);
      WantedLast(samples, startTs, middle);
      WantedLast(samples, middle + 1, endTs);
      WantedLast(samples, startTs, endTs);
    }
  }

  lemma RangesShareOut(s: Sample, startTs: nat, middle: nat, endTs: nat)
    requires startTs <= middle && 0 < middle && (endTs == 0 || middle < endTs)
    ensures !(IsWithin(s, startTs, middle) && IsWithin(s, middle + 1, endTs))
    ensures IsWithin(s, startTs, endTs) <==> IsWithin(s, startTs, middle) || IsWithin(s, middle + 1, endTs)
  {
  }

  lemma WantedLast(samples: seq<Sample>, startTs: nat, endTs: nat)
    requires samples != []
    ensures var n := |samples| - 1;
            multiset(Wanted(samples, startTs, endTs))
            == multiset(Wanted(samples[..n], startTs, endTs))
               + if IsWithin(samples[n], startTs, endTs) then multiset{Convert(samples[n])} else multiset{}
  {
  }

  /** One traversal by the orchestrator: the batches it delivers, and how it ends when no consumer stops it. */
  datatype Traversal = Traversal(batches: seq<seq<Sample>>, outcome: Status)

  predicate IsTraversal(t: Traversal) {
    !t.outcome.BufferTooSmall?
  }

  method CountSamplesInRange(samples: seq<Sample>, startTs: nat, endTs: nat) returns (count: nat)
    ensures count == |Wanted(samples, startTs, endTs)|
  {
    count := 0;
    for i := 0 to |samples|
      invariant count == |Wanted(samples[..i], startTs, endTs)|
    {
      assert samples[..i + 1][..i] == samples[..i];
      if IsWithin(samples[i], startTs, endTs) {
        count := count + 1;
      }
    }
    assert samples[..|samples|] == samples;
  }

  /** Adds the batch to the count unless the sum would leave `size_t`. */
  method CountMetricSamplesInBatch(batch: seq<Sample>, startTs: nat, endTs: nat, filteredCount: nat)
    returns (status: Status, count: nat)
    requires filteredCount <= SIZE_MAX
    ensures var sum := filteredCount + |Wanted(batch, startTs, endTs)|;
            (status, count) == if sum > SIZE_MAX then (BufferTooSmall, filteredCount) else (Success, sum)
  {
    var batchCount := CountSamplesInRange(batch, startTs, endTs);
    if batchCount > SIZE_MAX - filteredCount {
      return BufferTooSmall, filteredCount;
    }
    return Success, filteredCount + batchCount;
  }

  /** The counting pass over one traversal. */
  method CountPass(t: Traversal, startTs: nat, endTs: nat) returns (status: Status, filteredCount: nat)
    requires IsTraversal(t)
    ensures filteredCount <= SIZE_MAX
    ensures var n := |Wanted(Flatten(t.batches), startTs, endTs)|;
            && (n <= SIZE_MAX ==> status == t.outcome && filteredCount == n)
            && (n > SIZE_MAX ==> status == BufferTooSmall)
  {
    filteredCount := 0;
    for i := 0 to |t.batches|
      invariant filteredCount == |Wanted(Flatten(t.batches[..i]), startTs, endTs)| <= SIZE_MAX
    {
      var before := filteredCount;
      status, filteredCount := CountMetricSamplesInBatch(t.batches[i], startTs, endTs, filteredCount);
      assert t.batches[..i + 1][..i] == t.batches[..i];
      WantedAppend(Flatten(t.batches[..i]), t.batches[i], startTs, endTs);
      if status != Success {
        PrefixWanted(t.batches, i + 1, startTs, endTs);
        return;
      }
    }
    assert t.batches[..|t.batches|] == t.batches;
    status := t.outcome;
  }

  lemma {:induction false} PrefixWanted(batches: seq<seq<Sample>>, i: nat, startTs: nat, endTs: nat)
    requires i <= |batches|
    ensures |Wanted(Flatten(batches[..i]), startTs, endTs)| <= |Wanted(Flatten(batches), startTs, endTs)|
    decreases |batches|
  {
    var n := |batches|;
    if i < n {
      assert batches[..n - 1][..i] == batches[..i];
      PrefixWanted(batches[..n - 1], i, startTs, endTs);
      WantedAppend(Flatten(batches[..n - 1]), batches[n - 1], startTs, endTs);
    } else {
      assert batches[..i] == batches;
    }
  }

  /** The count query: `None` leaves the caller's count alone. */
  method PopulateSampleCountOutput(t: Traversal, startTs: nat, endTs: nat)
    returns (status: Status, sampleCount: Option<nat>)
    requires IsTraversal(t)
    ensures var n := |Wanted(Flatten(t.batches), startTs, endTs)|;
            && (t.outcome == Success && n <= UINT32_MAX ==> status == Success && sampleCount == Some(n))
            && (n > UINT32_MAX && (n > SIZE_MAX || t.outcome == Success) ==>
                  status == BufferTooSmall && sampleCount == None)
            && (t.outcome != Success && n <= SIZE_MAX ==> status == t.outcome && sampleCount == None)
  {
    var filteredCount;
    status, filteredCount := CountPass(t, startTs, endTs);
    if status != Success {
      return status, None;
    }
    if filteredCount > UINT32_MAX {
      return BufferTooSmall, None;
    }
    return Success, Some(filteredCount);
  }

  /** The two traversals of one retrieval. They may split the samples differently, but they deliver the same
      ones; a second traversal that fails delivers a beginning of them. */
  predicate SameSamples(first: Traversal, second: Traversal) {
    && Flatten(second.batches) <= Flatten(first.batches)
    && (second.outcome == Success ==> Flatten(second.batches) == Flatten(first.batches))
  }

  lemma WriteNext(done: seq<AstlSample>, was: seq<AstlSample>, x: AstlSample)
    requires |done| < |was|
    ensures (done + was[|done|..])[|done| := x] == (done + [x]) + was[|done| + 1..]
  {
  }

  class MetricSamplesRequest {
    const outputSamples: array<AstlSample>
    var sampleCount: nat
    var consumed: bool

    constructor (outputSamples: array<AstlSample>)
      ensures this.outputSamples == outputSamples && sampleCount == outputSamples.Length && !consumed
    {
      this.outputSamples := outputSamples;
      sampleCount, consumed := outputSamples.Length, false;
    }

    /** The buffer holds `written`, and behind it what it held at first. */
    ghost predicate Holds(written: seq<AstlSample>, was: seq<AstlSample>)
      reads outputSamples
    {
      && |written| <= outputSamples.Length == |was|
      && outputSamples[..] == written + was[|written|..]
    }

    method CopyMetricSamplesBatch(batch: seq<Sample>, startTs: nat, endTs: nat, filteredCount: nat, outputOffset: nat,
                                  ghost written: seq<AstlSample>, ghost was: seq<AstlSample>)
      returns (status: Status, offset: nat)
      requires Holds(written, was) && outputOffset == |written|
      requires filteredCount <= outputSamples.Length ==> |written + Wanted(batch, startTs, endTs)| <= filteredCount
      modifies outputSamples
      ensures status == if filteredCount > UINT32_MAX || filteredCount > outputSamples.Length then BufferTooSmall
                        else Success
      ensures status == Success ==>
                && Holds(written + Wanted(batch, startTs, endTs), was)
                && offset == |written + Wanted(batch, startTs, endTs)|
      ensures status != Success ==> outputSamples[..] == old(outputSamples[..]) && offset == outputOffset
    {
      offset := outputOffset;
      if filteredCount > UINT32_MAX || filteredCount > outputSamples.Length {
        return BufferTooSmall, offset;
      }
      assert written + [] == written;
      for i := 0 to |batch|
        invariant Holds(written + Wanted(batch[..i], startTs, endTs), was)
        invariant offset == |written| + |Wanted(batch[..i], startTs, endTs)|
      {
        var sample := batch[i];
        assert batch[..i + 1][..i] == batch[..i];
        assert |Wanted(batch[..i + 1], startTs, endTs)| <= |Wanted(batch, startTs, endTs)| by {
          WantedAppend(batch[..i + 1], batch[i + 1..], startTs, endTs);
          assert batch[..i + 1] + batch[i + 1..] == batch;
        }
        if IsWithin(sample, startTs, endTs) {
          ghost var done := written + Wanted(batch[..i], startTs, endTs);
          WriteNext(done, was, Convert(sample));
          outputSamples[offset] := Convert(sample);
          assert written + Wanted(batch[..i + 1], startTs, endTs) == done + [Convert(sample)];
          assert outputSamples[..] == (done + was[|done|..])[|done| := Convert(sample)];
          offset := offset + 1;
        }
      }
      assert batch[..|batch|] == batch;
      status := Success;
    }

    /** The copying pass over one traversal. */
    method CopyPass(t: Traversal, startTs: nat, endTs: nat, filteredCount: nat) returns (status: Status)
      requires IsTraversal(t)
      requires |Wanted(Flatten(t.batches), startTs, endTs)| <= filteredCount
      requires t.outcome == Success ==> |Wanted(Flatten(t.batches), startTs, endTs)| == filteredCount
      modifies outputSamples
      ensures var fits := filteredCount <= UINT32_MAX && filteredCount <= outputSamples.Length;
              && (fits ==> status == t.outcome
                           && Holds(Wanted(Flatten(t.batches), startTs, endTs), old(outputSamples[..])))
              && (!fits ==> outputSamples[..] == old(outputSamples[..])
                            && (status == BufferTooSmall || (status == t.outcome && status != Success)))
    {
      ghost var was := outputSamples[..];
      var outputOffset := 0;
      for i := 0 to |t.batches|
        invariant Holds(Wanted(Flatten(t.batches[..i]), startTs, endTs), was)
        invariant outputOffset == |Wanted(Flatten(t.batches[..i]), startTs, endTs)|
        invariant i > 0 ==> filteredCount <= UINT32_MAX && filteredCount <= outputSamples.Length
      {
        ghost var written := Wanted(Flatten(t.batches[..i]), startTs, endTs);
        assert t.batches[..i + 1][..i] == t.batches[..i];
        WantedAppend(Flatten(t.batches[..i]), t.batches[i], startTs, endTs);
        PrefixWanted(t.batches, i + 1, startTs, endTs);
        status, outputOffset :=
          CopyMetricSamplesBatch(t.batches[i], startTs, endTs, filteredCount, outputOffset, written, was);
        if status != Success {
          return;
        }
      }
      assert t.batches[..|t.batches|] == t.batches;
      status := t.outcome;
    }

    method SetCountAndValidateCapacity(filteredCount: nat) returns (status: Status)
      modifies this`sampleCount
      ensures sampleCount == if filteredCount > UINT32_MAX then old(sampleCount) else filteredCount
      ensures status == if filteredCount > UINT32_MAX || filteredCount > outputSamples.Length then BufferTooSmall
                        else Success
    {
      if filteredCount > UINT32_MAX {
        return BufferTooSmall;
      }
      sampleCount := filteredCount;
      return if filteredCount > outputSamples.Length then BufferTooSmall else Success;
    }

    /** `first` and `second` are the two traversals; `consumed` records that the samples were given up. */
    method PopulateMetricSamplesOutput(first: Traversal, second: Traversal, startTs: nat, endTs: nat)
      returns (status: Status)
      requires IsTraversal(first) && IsTraversal(second) && SameSamples(first, second)
      modifies this, outputSamples
      ensures consumed == (old(consumed) || status == Success)
      // both traversals complete and the count is representable: a function of the samples alone
      ensures var want := Wanted(Flatten(first.batches), startTs, endTs);
              first.outcome == Success && second.outcome == Success && |want| <= UINT32_MAX ==>
                && sampleCount == |want|
                && (|want| <= outputSamples.Length ==> status == Success && Holds(want, old(outputSamples[..])))
                && (|want| > outputSamples.Length ==>
                      status == BufferTooSmall && outputSamples[..] == old(outputSamples[..]))
      // the count is not representable
      ensures |Wanted(Flatten(first.batches), startTs, endTs)| > UINT32_MAX ==>
                status != Success && outputSamples[..] == old(outputSamples[..])
      ensures var n := |Wanted(Flatten(first.batches), startTs, endTs)|;
              UINT32_MAX < n <= SIZE_MAX && first.outcome == Success && second.outcome == Success ==>
                status == BufferTooSmall && sampleCount == old(sampleCount)
      // a traversal fails
      ensures first.outcome != Success && |Wanted(Flatten(first.batches), startTs, endTs)| <= SIZE_MAX ==>
                && status == first.outcome && sampleCount == old(sampleCount)
                && outputSamples[..] == old(outputSamples[..])
      ensures first.outcome == Success && second.outcome != Success ==> status != Success
    {
      var filteredCount;
      status, filteredCount := CountPass(first, startTs, endTs);
      if status == Success {
        ghost var rest := Flatten(first.batches)[|Flatten(second.batches)|..];
        WantedAppend(Flatten(second.batches), rest, startTs, endTs);
        assert Flatten(first.batches) == Flatten(second.batches) + rest;
        status := CopyPass(second, startTs, endTs, filteredCount);
      }
      if status == Success || status == BufferTooSmall {
        var capacityStatus := SetCountAndValidateCapacity(filteredCount);
        if status == Success {
          status := capacityStatus;
        }
      }
      if status == Success {
        consumed := true;
      }
    }
  }

  /** Retrying with the count a short buffer was told is enough, however the samples are batched next time. */
  method RetryWithRequiredCount(request: MetricSamplesRequest, first: Traversal, second: Traversal,
                                first': Traversal, second': Traversal, startTs: nat, endTs: nat)
    returns (status: Status, retried: MetricSamplesRequest)
    requires IsTraversal(first) && IsTraversal(second) && SameSamples(first, second)
    requires IsTraversal(first') && IsTraversal(second') && SameSamples(first', second')
    requires first.outcome == second.outcome == first'.outcome == second'.outcome == Success
    requires Flatten(first.batches) == Flatten(first'.batches)
    requires |Wanted(Flatten(first.batches), startTs, endTs)| <= UINT32_MAX
    modifies request, request.outputSamples
    ensures status == Success
    ensures var want := Wanted(Flatten(first.batches), startTs, endTs);
            retried.sampleCount == |want| && |want| <= retried.outputSamples.Length
            && retried.outputSamples[..|want|] == want
  {
    status := request.PopulateMetricSamplesOutput(first, second, startTs, endTs);
    retried := request;
    if status == BufferTooSmall {
      var buffer := new AstlSample[request.sampleCount](_ => AstlSample(0, 0));
      retried := new MetricSamplesRequest(buffer);
      status := retried.PopulateMetricSamplesOutput(first', second', startTs, endTs);
    }
  }
}
