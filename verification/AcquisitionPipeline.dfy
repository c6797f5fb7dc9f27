/**
 * The way of acquisition frames from the reader over the batch and the queue to the
 * publisher and its histories. One call stands for one uninterrupted step of a thread.
 */
module AcquisitionPipeline {
  import opened UdpStream

  type Word = w: int | 0 <= w < 0x1_0000_0000

  const FRAME_WORDS := 24
  const HISTORY_LIMIT := 960
  const MAX_PENDING_FRAMES := 120000
  const HISTORY_SAMPLE_INTERVAL_US := 100

  type Words = s: seq<Word> | |s| == FRAME_WORDS witness seq(FRAME_WORDS, i => 0)

  datatype Packet = Packet(sequence: nat, capturedAtUs: int, words: Words)

  /** A frame that has been added to the histories. */
  datatype Sampled = Sampled(atUs: int, samples: Samples)

  // ---- Samples ----

  function AsInt16(half: int): Int16
    requires 0 <= half < 0x1_0000
  {
    Signed16(half)
  }

  /** The high half of each word, then its low half. */
  function Unpacked(words: Words): Samples {
    seq(FRAME_COLUMNS, k requires 0 <= k < FRAME_COLUMNS =>
      AsInt16(if k % 2 == 0 then words[k / 2] / 0x1_0000 else words[k / 2] % 0x1_0000))
  }

  method UnpackFrame(words: Words) returns (samples: seq<Int16>)
    ensures samples == Unpacked(words)
  {
    samples := [];
    for index := 0 to FRAME_WORDS
      invariant |samples| == 2 * index && samples == Unpacked(words)[..2 * index]
    {
      var word := words[index];
      assert (2 * index + 1) / 2 == index && (2 * index + 1) % 2 == 1;
      samples := samples + [AsInt16(word / 0x1_0000), AsInt16(word % 0x1_0000)];
    }
  }

  /** The words can be recovered from the samples. */
  lemma UnpackedIsInjective(a: Words, b: Words)
    requires Unpacked(a) == Unpacked(b)
    ensures a == b
  {
    forall k | 0 <= k < FRAME_WORDS ensures a[k] == b[k] {
      assert Unpacked(a)[2 * k] == Unpacked(b)[2 * k];
      assert Unpacked(a)[2 * k + 1] == Unpacked(b)[2 * k + 1];
      assert (2 * k + 1) / 2 == k && (2 * k + 1) % 2 == 1;
    }
  }

  // ---- Histories ----

  /** The last elements of a series, no more than the history limit. */
  function Recent<T>(s: seq<T>): (r: seq<T>)
    ensures |r| == if |s| < HISTORY_LIMIT then |s| else HISTORY_LIMIT
  {
    if |s| <= HISTORY_LIMIT then s else s[|s| - HISTORY_LIMIT..]
  }

  function Times(all: seq<Sampled>): seq<int> {
    seq(|all|, i requires 0 <= i < |all| => all[i].atUs)
  }

  function Column(all: seq<Sampled>, k: nat): seq<Int16>
    requires k < FRAME_COLUMNS
  {
    seq(|all|, i requires 0 <= i < |all| => all[i].samples[k])
  }

  /** Appending to a bounded series keeps it the recent part of the whole one. */
  lemma RecentAppended<T>(s: seq<T>, x: T)
    ensures Recent(s + [x]) == Recent(Recent(s) + [x])
  {
  }

  ghost predicate SeriesAgree(history: seq<seq<Int16>>, all: seq<Sampled>, from: nat, to: nat)
    requires to <= FRAME_COLUMNS
  {
    |history| == FRAME_COLUMNS && forall k :: from <= k < to ==> history[k] == Recent(Column(all, k))
  }

  ghost predicate HistoryAgrees(timeline: seq<int>, history: seq<seq<Int16>>, all: seq<Sampled>) {
    timeline == Recent(Times(all)) && SeriesAgree(history, all, 0, FRAME_COLUMNS)
  }

  /** A value is appended and the oldest one taken off when there are too many. */
  method AppendBounded<T>(series: seq<T>, x: T, ghost whole: seq<T>) returns (longer: seq<T>)
    requires series == Recent(whole)
    ensures longer == Recent(whole + [x])
  {
    RecentAppended(whole, x);
    longer := series + [x];
    if |longer| > HISTORY_LIMIT {
      longer := longer[1..];
    }
  }

  // ---- Where the frames are ----

  function Flat(queue: seq<seq<Packet>>): seq<Packet> {
    if queue == [] then [] else queue[0] + Flat(queue[1..])
  }

  function Numbers(packets: seq<Packet>): (s: seq<nat>)
    ensures |s| == |packets|
  {
    seq(|packets|, i requires 0 <= i < |packets| => packets[i].sequence)
  }

  function Range(first: nat, end: nat): seq<nat>
    requires first <= end
  {
    seq(end - first, i requires 0 <= i < end - first => first + i)
  }

  predicate Increasing(s: seq<nat>) {
    forall i, j :: 0 <= i < j < |s| ==> s[i] < s[j]
  }

  predicate Below(s: seq<nat>, end: nat) {
    forall i :: 0 <= i < |s| ==> s[i] < end
  }

  lemma {:induction false} FlatAppend(queue: seq<seq<Packet>>, batch: seq<Packet>)
    ensures Flat(queue + [batch]) == Flat(queue) + batch
  {
    if queue == [] {
      assert Flat([batch]) == batch + Flat([]);
    } else {
      assert (queue + [batch])[1..] == queue[1..] + [batch];
      FlatAppend(queue[1..], batch);
    }
  }

  lemma NumbersAppend(a: seq<Packet>, b: seq<Packet>)
    ensures Numbers(a + b) == Numbers(a) + Numbers(b)
  {
  }

  lemma NumberOf(packet: Packet)
    ensures Numbers([packet]) == [packet.sequence]
  {
  }

  lemma NoNumbers()
    ensures Numbers([]) == []
  {
  }

  lemma OneNumber(frames: seq<Packet>, k: nat, after: seq<nat>)
    requires k < |frames|
    ensures Numbers(frames[k..]) + after == [frames[k].sequence] + (Numbers(frames[k + 1..]) + after)
    ensures Numbers(frames[..k + 1]) == Numbers(frames[..k]) + [frames[k].sequence]
  {
    assert Numbers(frames[k..]) == [frames[k].sequence] + Numbers(frames[k + 1..]);
  }

  /** A captured frame has been published, dropped or drained, or is still on its way; never two of them. */
  datatype Fates = Fates(published: seq<nat>, dropped: seq<nat>, drained: seq<nat>, onTheWay: seq<nat>)

  ghost predicate Accounts(f: Fates, first: nat, end: nat) {
    && first <= end
    && multiset(f.published) + multiset(f.dropped) + multiset(f.drained) + multiset(f.onTheWay) == multiset(Range(first, end))
    && Increasing(f.published + f.onTheWay)
    && Below(f.published + f.onTheWay, end)
  }

  lemma Captured(f: Fates, first: nat, end: nat)
    requires Accounts(f, first, end)
    ensures Accounts(f.(onTheWay := f.onTheWay + [end]), first, end + 1)
  {
    assert Range(first, end + 1) == Range(first, end) + [end];
    assert f.published + (f.onTheWay + [end]) == (f.published + f.onTheWay) + [end];
  }

  lemma Published(f: Fates, first: nat, end: nat)
    requires Accounts(f, first, end) && f.onTheWay != []
    ensures Accounts(Fates(f.published + [f.onTheWay[0]], f.dropped, f.drained, f.onTheWay[1..]), first, end)
  {
    assert f.onTheWay == [f.onTheWay[0]] + f.onTheWay[1..];
    assert (f.published + [f.onTheWay[0]]) + f.onTheWay[1..] == f.published + f.onTheWay;
  }

  /** The frames that are left keep their order when others are taken from behind or from before them. */
  lemma Discarded(f: Fates, first: nat, end: nat, kept: seq<nat>, gone: seq<nat>, dropping: bool)
    requires Accounts(f, first, end)
    requires f.onTheWay == if dropping then kept + gone else gone + kept
    ensures Accounts(
      if dropping then f.(dropped := f.dropped + gone, onTheWay := kept)
      else f.(drained := f.drained + gone, onTheWay := kept), first, end)
  {
    var n, p := f.published + kept, f.published + f.onTheWay;
    assert multiset(f.onTheWay) == multiset(kept) + multiset(gone);
    var shift := if dropping then 0 else |gone|;
    forall i | 0 <= i < |n| ensures n[i] == p[if i < |f.published| then i else i + shift] {
    }
  }

  method AppendToEach(history: seq<seq<Int16>>, samples: Samples, atUs: int, ghost sampled: seq<Sampled>)
    returns (longer: seq<seq<Int16>>)
    requires SeriesAgree(history, sampled, 0, FRAME_COLUMNS)
    ensures SeriesAgree(longer, sampled + [Sampled(atUs, samples)], 0, FRAME_COLUMNS)
  {
    hide Recent, Column;
    ghost var all := sampled + [Sampled(atUs, samples)];
    longer := history;
    for index := 0 to FRAME_COLUMNS
      invariant SeriesAgree(longer, all, 0, index) && SeriesAgree(longer, sampled, index, FRAME_COLUMNS)
    {
      ColumnAppended(sampled, Sampled(atUs, samples), index);
      var series := AppendBounded(longer[index], samples[index], Column(sampled, index));
      longer := longer[index := series];
    }
  }

  lemma ColumnAppended(all: seq<Sampled>, s: Sampled, k: nat)
    requires k < FRAME_COLUMNS
    ensures Column(all + [s], k) == Column(all, k) + [s.samples[k]]
  {
  }

  function LessOrNone(a: nat, b: nat): nat {
    if a >= b then a - b else 0
  }

  class Pipeline {
    var sequence: nat
    var batch: seq<Packet>
    var queue: seq<seq<Packet>>
    var queueDepth: nat
    var droppedFrames: nat
    var totalFrames: nat
    var timeline: seq<int>
    var history: seq<seq<Int16>>
    var lastHistorySampleAtUs: int

    ghost const first: nat
    ghost var published: seq<nat>
    ghost var dropped: seq<nat>
    ghost var drained: seq<nat>
    ghost var sampled: seq<Sampled>

    ghost function OnTheWay(): seq<nat>
      reads this
    {
      Numbers(Flat(queue)) + Numbers(batch)
    }

    ghost predicate FramesValid()
      reads this
    {
      && Accounts(Fates(published, dropped, drained, OnTheWay()), first, sequence)
      && queueDepth == |Flat(queue)|
      && (forall i :: 0 <= i < |queue| ==> queue[i] != [])
      && droppedFrames == |dropped|
      && totalFrames == if published == [] then first else published[|published| - 1] + 1
    }

    ghost predicate HistoryValid()
      reads this`timeline, this`history, this`sampled
    {
      HistoryAgrees(timeline, history, sampled)
    }

    ghost predicate Valid()
      reads this
    {
      FramesValid() && HistoryValid()
    }

    /** A session starts with the number after the last published frame. */
    constructor (first: nat)
      ensures Valid() && this.first == first && sequence == first && sampled == []
    {
      sequence, totalFrames, this.first := first, first, first;
      batch, queue, queueDepth, droppedFrames := [], [], 0, 0;
      published, dropped, drained, sampled := [], [], [], [];
      timeline, lastHistorySampleAtUs := [], 0;
      history := seq(FRAME_COLUMNS, i => []);
    }

    /** The reader has read one frame. */
    method Capture(capturedAtUs: int, words: Words)
      requires Valid()
      modifies this`batch, this`sequence
      ensures Valid() && sequence == old(sequence) + 1
      ensures batch == old(batch) + [Packet(old(sequence), capturedAtUs, words)]
    {
      hide Accounts, Numbers, HistoryAgrees;
      ghost var fates := Fates(published, dropped, drained, OnTheWay());
      Captured(fates, first, sequence);
      var packet := Packet(sequence, capturedAtUs, words);
      NumbersAppend(batch, [packet]);
      NumberOf(packet);
      batch := batch + [packet];
      sequence := sequence + 1;
      assert OnTheWay() == fates.onTheWay + [sequence - 1];
    }

    /** The reader hands over its batch, or drops it when too many frames are pending. */
    method FlushBatch()
      requires Valid()
      modifies this`batch, this`queue, this`queueDepth, this`droppedFrames, this`dropped
      ensures Valid() && batch == []
      ensures if old(queueDepth + |batch|) > MAX_PENDING_FRAMES
              then unchanged(this`queue) && dropped == old(dropped) + Numbers(old(batch))
              else unchanged(this`dropped) && Flat(queue) == old(Flat(queue) + batch)
    {
      hide Accounts, Numbers, HistoryAgrees;
      NoNumbers();
      if batch == [] {
        assert Flat(queue) + batch == Flat(queue);
        return;
      }
      if queueDepth + |batch| > MAX_PENDING_FRAMES {
        Discarded(Fates(published, dropped, drained, OnTheWay()), first, sequence, Numbers(Flat(queue)), Numbers(batch), true);
        droppedFrames := droppedFrames + |batch|;
        dropped := dropped + Numbers(batch);
        batch := [];
        assert OnTheWay() == Numbers(Flat(queue));
        return;
      }
      ghost var before := OnTheWay();
      FlatAppend(queue, batch);
      NumbersAppend(Flat(queue), batch);
      queue := queue + [batch];
      queueDepth := queueDepth + |batch|;
      batch := [];
      assert OnTheWay() == before;
    }

    /** The publisher takes one batch from the queue and publishes its frames in order. */
    method PublishNext()
      requires Valid() && queue != []
      modifies this
      ensures Valid()
      ensures unchanged(this`batch) && unchanged(this`sequence) && unchanged(this`dropped) && unchanged(this`drained)
      ensures queue == old(queue[1..]) && published == old(published) + Numbers(old(queue[0]))
    {
      hide Accounts, Numbers, HistoryAgrees;
      var frames := queue[0];
      ghost var rest := queue[1..];
      ghost var after := Numbers(Flat(rest)) + Numbers(batch);
      NumbersAppend(frames, Flat(rest));
      assert OnTheWay() == Numbers(frames) + after;
      queue := queue[1..];
      queueDepth := LessOrNone(queueDepth, |frames|);
      PublishFrames(frames, after);
      assert OnTheWay() == after;
    }

    method PublishFrames(frames: seq<Packet>, ghost after: seq<nat>)
      requires HistoryValid() && frames != []
      requires Accounts(Fates(published, dropped, drained, Numbers(frames) + after), first, sequence)
      modifies this`totalFrames, this`published, this`timeline, this`history, this`sampled, this`lastHistorySampleAtUs
      ensures HistoryValid()
      ensures published == old(published) + Numbers(frames) && totalFrames == published[|published| - 1] + 1
      ensures Accounts(Fates(published, dropped, drained, after), first, sequence)
    {
      hide Accounts, Numbers, HistoryAgrees;
      NoNumbers();
      assert frames[0..] == frames && frames[..0] == [];
      assert published + [] == published;
      for k := 0 to |frames|
        invariant published == old(published) + Numbers(frames[..k])
        invariant Accounts(Fates(published, dropped, drained, Numbers(frames[k..]) + after), first, sequence)
        invariant k > 0 ==> published != [] && totalFrames == published[|published| - 1] + 1
        invariant HistoryValid()
      {
        OneNumber(frames, k, after);
        PublishFrame(frames[k], Numbers(frames[k + 1..]) + after);
      }
      assert frames[|frames|..] == [] && frames[..|frames|] == frames;
      assert [] + after == after;
    }

    /** One frame of the batch: it is unpacked, counted and, when it is time, added to the histories. */
    method PublishFrame(packet: Packet, ghost after: seq<nat>)
      requires HistoryValid()
      requires Accounts(Fates(published, dropped, drained, [packet.sequence] + after), first, sequence)
      modifies this`totalFrames, this`published, this`timeline, this`history, this`sampled, this`lastHistorySampleAtUs
      ensures HistoryValid()
      ensures published == old(published) + [packet.sequence] && totalFrames == packet.sequence + 1
      ensures Accounts(Fates(published, dropped, drained, after), first, sequence)
      ensures var due := old(lastHistorySampleAtUs) == 0 || packet.capturedAtUs - old(lastHistorySampleAtUs) >= HISTORY_SAMPLE_INTERVAL_US;
        sampled == old(sampled) + if due then [Sampled(packet.capturedAtUs, Unpacked(packet.words))] else []
    {
      hide Accounts, Unpacked, HistoryAgrees;
      Published(Fates(published, dropped, drained, [packet.sequence] + after), first, sequence);
      assert ([packet.sequence] + after)[1..] == after;
      var samples := UnpackFrame(packet.words);
      totalFrames := packet.sequence + 1;
      published := published + [packet.sequence];
      if lastHistorySampleAtUs == 0 || packet.capturedAtUs - lastHistorySampleAtUs >= HISTORY_SAMPLE_INTERVAL_US {
        AppendHistory(samples, packet.capturedAtUs);
        lastHistorySampleAtUs := packet.capturedAtUs;
      }
    }

    /** Appends one value to each series and takes old ones off its front. */
    method AppendHistory(samples: Samples, capturedAtUs: int)
      requires HistoryValid()
      modifies this`timeline, this`history, this`sampled
      ensures HistoryValid() && sampled == old(sampled) + [Sampled(capturedAtUs, samples)]
    {
      hide Recent;
      ghost var all := sampled + [Sampled(capturedAtUs, samples)];
      assert Times(all) == Times(sampled) + [capturedAtUs];
      timeline := AppendBounded(timeline, capturedAtUs, Times(sampled));
      history := AppendToEach(history, samples, capturedAtUs, sampled);
      sampled := all;
    }

    /** Stopping throws away what is queued. */
    method DrainQueue()
      requires Valid()
      modifies this`queue, this`queueDepth, this`drained
      ensures Valid() && queue == [] && drained == old(drained) + Numbers(old(Flat(queue)))
    {
      hide Accounts, Numbers, HistoryAgrees;
      NoNumbers();
      Discarded(Fates(published, dropped, drained, OnTheWay()), first, sequence, Numbers(batch), Numbers(Flat(queue)), false);
      drained := drained + Numbers(Flat(queue));
      queue := [];
      queueDepth := 0;
      assert OnTheWay() == Numbers(batch);
    }
  }

  /** Accounting for frames one by one accounts for their number. */
  lemma FatesAddUp(f: Fates, first: nat, end: nat)
    requires Accounts(f, first, end)
    ensures end - first == |f.published| + |f.dropped| + |f.drained| + |f.onTheWay|
  {
    assert |multiset(f.published) + multiset(f.dropped) + multiset(f.drained) + multiset(f.onTheWay)| == |multiset(Range(first, end))|;
  }
}
