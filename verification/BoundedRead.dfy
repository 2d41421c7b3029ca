/** Reading a stream under a byte budget, against a reader that returns what it
    likes. */
module BoundedRead {
  import opened Basics

  const READ_CHUNK := 64 * 1024
  const USIZE_MAX := 0xFFFF_FFFF_FFFF_FFFF

  type usize = x: int | 0 <= x <= USIZE_MAX

  /** What the reader does with its next request; after the last entry it fills
      every request it can. A chunk of at least one byte is offered, but never
      more than was requested or is left. */
  datatype Reply = Chunk(size: nat) | Interrupted | Broken

  datatype Outcome = Whole(bytes: seq<byte>) | TooLarge | IoFailed

  function Min(a: nat, b: nat): nat { if a < b then a else b }

  /** `limit.saturating_add(1)`. */
  function ProbeLimit(limit: usize): nat { if limit == USIZE_MAX then USIZE_MAX else limit + 1 }

  /** How many bytes a request gets. */
  function Given(replies: seq<Reply>, requested: nat, left: nat): nat {
    var offered :=
      if |replies| > 0 && replies[0].Chunk? then (if replies[0].size == 0 then 1 else replies[0].size)
      else requested;
    Min(offered, Min(requested, left))
  }

  function Later(replies: seq<Reply>): seq<Reply> { if |replies| == 0 then [] else replies[1..] }

  /** One request: how much had arrived before it, how much it asked for, how much it got. */
  datatype Request = Request(received: nat, size: nat, got: nat)

  datatype Trace = Trace(outcome: Outcome, requests: seq<Request>)

  function Requesting(r: Request, t: Trace): Trace { Trace(t.outcome, [r] + t.requests) }

  /** `read_stream_bounded` from the point where `received` bytes have arrived. */
  function ReadFrom(stream: seq<byte>, received: nat, replies: seq<Reply>, limit: usize): Trace
    requires received <= |stream|
    decreases |stream| - received, |replies|
  {
    var remaining := if received < ProbeLimit(limit) then ProbeLimit(limit) - received else 0;
    if remaining == 0 then Trace(TooLarge, [])
    else
      var requested := Min(remaining, READ_CHUNK);
      if |replies| > 0 && replies[0].Interrupted? then
        Requesting(Request(received, requested, 0), ReadFrom(stream, received, replies[1..], limit))
      else if |replies| > 0 && replies[0].Broken? then Trace(IoFailed, [Request(received, requested, 0)])
      else
        var read := Given(replies, requested, |stream| - received);
        var request := Request(received, requested, read);
        if read == 0 then Trace(Whole(stream[..received]), [request])
        else if received + read > limit then Trace(TooLarge, [request])
        else Requesting(request, ReadFrom(stream, received + read, Later(replies), limit))
  }

  datatype ReadResult = Bytes(data: seq<byte>) | Interrupt | Failure

  /** The reader: a stream, the moods it will be in, and a log of what it was asked for. */
  class Reader {
    const stream: seq<byte>
    var position: nat
    var replies: seq<Reply>
    var requests: seq<Request>

    constructor (stream: seq<byte>, replies: seq<Reply>)
      ensures this.stream == stream && position == 0 && this.replies == replies && requests == []
    {
      this.stream := stream;
      this.replies := replies;
      position, requests := 0, [];
    }

    method Read(requested: nat) returns (r: ReadResult)
      requires position <= |stream|
      modifies this
      ensures replies == Later(old(replies))
      ensures old(position) <= position <= |stream|
      ensures requests == old(requests) + [Request(old(position), requested, position - old(position))]
      ensures !r.Bytes? ==> position == old(position)
      ensures r.Interrupt? <==> |old(replies)| > 0 && old(replies)[0].Interrupted?
      ensures r.Failure? <==> |old(replies)| > 0 && old(replies)[0].Broken?
      ensures r.Bytes? ==> position == old(position) + Given(old(replies), requested, |stream| - old(position))
      ensures r.Bytes? ==> r.data == stream[old(position)..position]
    {
      var mood := replies;
      replies := Later(replies);
      if |mood| > 0 && (mood[0].Interrupted? || mood[0].Broken?) {
        requests := requests + [Request(position, requested, 0)];
        return if mood[0].Interrupted? then Interrupt else Failure;
      }
      var n := Given(mood, requested, |stream| - position);
      requests := requests + [Request(position, requested, n)];
      r := Bytes(stream[position..position + n]);
      position := position + n;
    }
  }

  /** The loop, over any reader. */
  method ReadStreamBounded(reader: Reader, limit: usize) returns (outcome: Outcome)
    requires reader.position == 0 && reader.requests == []
    modifies reader
    ensures Trace(outcome, reader.requests) == ReadFrom(reader.stream, 0, old(reader.replies), limit)
  {
    hide ReadFrom; hide Given; hide After;
    var probeLimit := ProbeLimit(limit);
    var output: seq<byte> := [];
    ghost var stream := reader.stream;
    ghost var whole := ReadFrom(stream, 0, reader.replies, limit);
    AfterNothing(whole);
    while true
      invariant reader.position == |output| <= |stream| && output == stream[..|output|]
      invariant whole == After(reader.requests, ReadFrom(stream, |output|, reader.replies, limit))
      decreases |stream| - |output|, |reader.replies|
    {
      Round(reader.requests, stream, |output|, reader.replies, limit);
      var remaining := if |output| < probeLimit then probeLimit - |output| else 0;
      if remaining == 0 { return TooLarge; }
      var requested := Min(remaining, READ_CHUNK);
      var answer := reader.Read(requested);
      match answer {
        case Bytes(data) =>
          if |data| == 0 { return Whole(output); }
          output := output + data;
          if |output| > limit { return TooLarge; }
        case Interrupt =>
        case Failure => return IoFailed;
      }
    }
  }

  function After(done: seq<Request>, t: Trace): Trace { Trace(t.outcome, done + t.requests) }

  lemma AfterNothing(t: Trace)
    ensures After([], t) == t
  {
    assert [] + t.requests == t.requests;
  }

  /** One round of the loop, after the requests already made. */
  lemma Round(done: seq<Request>, stream: seq<byte>, received: nat, replies: seq<Reply>, limit: usize)
    requires received <= |stream|
    ensures After(done, ReadFrom(stream, received, replies, limit)) ==
      var remaining := if received < ProbeLimit(limit) then ProbeLimit(limit) - received else 0;
      var requested := Min(remaining, READ_CHUNK);
      var failed := done + [Request(received, requested, 0)];
      var read := Given(replies, requested, |stream| - received);
      var made := done + [Request(received, requested, read)];
      if remaining == 0 then Trace(TooLarge, done)
      else if |replies| > 0 && replies[0].Interrupted? then
        After(failed, ReadFrom(stream, received, replies[1..], limit))
      else if |replies| > 0 && replies[0].Broken? then Trace(IoFailed, failed)
      else if read == 0 then Trace(Whole(stream[..received]), made)
      else if received + read > limit then Trace(TooLarge, made)
      else After(made, ReadFrom(stream, received + read, Later(replies), limit))
  {
    hide Given;
    forall r, t ensures After(done, Requesting(r, t)) == After(done + [r], t) {
      assert done + ([r] + t.requests) == done + [r] + t.requests;
    }
    assert done + [] == done;
  }

  /** The last request of a run, when it ends the run. */
  function LastRequest(stream: seq<byte>, received: nat, replies: seq<Reply>, limit: usize): Request
    requires received <= |stream| && received < ProbeLimit(limit)
  {
    var requested := Min(ProbeLimit(limit) - received, READ_CHUNK);
    Request(received, requested, if Fails(replies) then 0 else Given(replies, requested, |stream| - received))
  }

  predicate Fails(replies: seq<Reply>) { |replies| > 0 && !replies[0].Chunk? }

  /** Whether a run goes on after its first request. */
  predicate GoesOn(stream: seq<byte>, received: nat, replies: seq<Reply>, limit: usize)
    requires received <= |stream| && received < ProbeLimit(limit)
  {
    if Fails(replies) then replies[0].Interrupted?
    else
      var got := LastRequest(stream, received, replies, limit).got;
      0 < got && received + got <= limit
  }

  /** The outcome of a run that ends with this request. */
  function FinalOutcome(stream: seq<byte>, r: Request, replies: seq<Reply>): Outcome
    requires r.received <= |stream|
  {
    if Fails(replies) then IoFailed else if r.got == 0 then Whole(stream[..r.received]) else TooLarge
  }

  /** One step of a run, seen through its first request. */
  lemma ReadStep(stream: seq<byte>, received: nat, replies: seq<Reply>, limit: usize)
    requires received <= |stream| && received < ProbeLimit(limit)
    ensures var r := LastRequest(stream, received, replies, limit);
      && 1 <= r.size <= 65_536 && r.received == received && r.size <= ProbeLimit(limit) - received
      && r.got <= r.size && received + r.got <= |stream|
      && (!Fails(replies) ==> (r.got == 0 <==> received == |stream|))
    ensures var r := LastRequest(stream, received, replies, limit);
      ReadFrom(stream, received, replies, limit) ==
        if GoesOn(stream, received, replies, limit)
        then Requesting(r, ReadFrom(stream, received + r.got, Later(replies), limit))
        else Trace(FinalOutcome(stream, r, replies), [r])
    ensures GoesOn(stream, received, replies, limit) ==>
      var r := LastRequest(stream, received, replies, limit);
      received + r.got <= limit && (r.got > 0 || |Later(replies)| < |replies|) && |Later(replies)| <= |replies|
    ensures !GoesOn(stream, received, replies, limit) && !Fails(replies) ==>
      var r := LastRequest(stream, received, replies, limit);
      r.got == 0 || received + r.got == ProbeLimit(limit) || (limit == USIZE_MAX && received + r.got > limit)
  {
  }

  // ----- what the loop guarantees -----

  /** Exact for every reader: whatever the chunks and the finitely many
      interruptions, the result is the whole stream exactly when it is shorter
      than the probe limit, and otherwise a resource limit; only a reader that
      reports an error changes that. */
  lemma {:induction false} BoundedReadIsExact(stream: seq<byte>, received: nat, replies: seq<Reply>, limit: usize)
    requires received <= |stream| && received <= limit
    ensures var outcome := ReadFrom(stream, received, replies, limit).outcome;
      && (Broken !in replies ==> outcome == if |stream| < ProbeLimit(limit) then Whole(stream) else TooLarge)
      && (outcome.Whole? ==> outcome == Whole(stream) && |stream| < ProbeLimit(limit))
      && (outcome.TooLarge? ==> |stream| >= ProbeLimit(limit))
    decreases |stream| - received, |replies|
  {
    if received < ProbeLimit(limit) {
      var requested := Min(ProbeLimit(limit) - received, READ_CHUNK);
      var read := Given(replies, requested, |stream| - received);
      if |replies| > 0 && replies[0].Interrupted? {
        BoundedReadIsExact(stream, received, replies[1..], limit);
      } else if !(|replies| > 0 && replies[0].Broken?) {
        if read == 0 {
          assert stream[..received] == stream;
        } else if received + read <= limit {
          BoundedReadIsExact(stream, received + read, Later(replies), limit);
        }
      }
    }
  }

  /** A read error is never passed over: the outcome is a failure exactly when some
      request was answered by an error, which is then the last one made. */
  lemma {:induction false} ErrorsAreReported(stream: seq<byte>, received: nat, replies: seq<Reply>, limit: usize)
    requires received <= |stream|
    ensures var t := ReadFrom(stream, received, replies, limit);
      && (t.outcome.IoFailed? <==> exists k | 0 <= k < |t.requests| && k < |replies| :: replies[k].Broken?)
      && (forall k | 0 <= k < |t.requests| && k < |replies| :: replies[k].Broken? ==> |t.requests| == k + 1)
    decreases |stream| - received, |replies|
  {
    hide Given; hide ReadFrom;
    if received < ProbeLimit(limit) {
      ReadStep(stream, received, replies, limit);
      var t := ReadFrom(stream, received, replies, limit);
      if GoesOn(stream, received, replies, limit) {
        var r := LastRequest(stream, received, replies, limit);
        var rest := Later(replies);
        ErrorsAreReported(stream, received + r.got, rest, limit);
        var u := ReadFrom(stream, received + r.got, rest, limit);
        assert t.requests == [r] + u.requests && t.outcome == u.outcome;
        assert |replies| > 0 ==> !replies[0].Broken?;
        assert forall k | 0 <= k < |rest| :: rest[k] == replies[k + 1];
        if k :| 0 <= k < |u.requests| && k < |rest| && rest[k].Broken? {
          assert replies[k + 1].Broken?;
        }
        if k :| 0 <= k < |t.requests| && k < |replies| && replies[k].Broken? {
          assert rest[k - 1].Broken?;
        }
      }
    } else {
      NothingRequested(stream, received, replies, limit);
    }
  }

  lemma NothingRequested(stream: seq<byte>, received: nat, replies: seq<Reply>, limit: usize)
    requires received <= |stream| && received >= ProbeLimit(limit)
    ensures ReadFrom(stream, received, replies, limit) == Trace(TooLarge, [])
  {
  }

  /** For every limit a machine can be given a buffer for, that bound is `limit` itself. */
  lemma ProbeIsLimitPlusOne(stream: seq<byte>, limit: usize)
    ensures (|stream| < ProbeLimit(limit) <==> |stream| <= limit) <==> limit < USIZE_MAX || |stream| != USIZE_MAX
  {
  }

  /** A request within the scratch buffer, that reaches no further than `limit + 1`
      bytes into the stream, and was not given more than it asked for. */
  predicate Within(r: Request, limit: usize) {
    1 <= r.size <= 65_536 && r.received + r.size <= limit + 1 && r.got <= r.size
  }

  predicate AllWithin(rs: seq<Request>, limit: usize) {
    |rs| > 0 ==> Within(rs[0], limit) && AllWithin(rs[1..], limit)
  }

  /** No request ever reaches past `limit + 1` bytes of the stream, nor past the
      scratch buffer. */
  lemma RequestsStayWithinProbe(stream: seq<byte>, received: nat, replies: seq<Reply>, limit: usize)
    requires received <= |stream|
    ensures forall r | r in ReadFrom(stream, received, replies, limit).requests :: Within(r, limit)
  {
    hide ReadFrom; hide Within;
    AllRequestsWithin(stream, received, replies, limit);
    WithinMeansEach(ReadFrom(stream, received, replies, limit).requests, limit);
  }

  lemma {:induction false} WithinMeansEach(rs: seq<Request>, limit: usize)
    requires AllWithin(rs, limit)
    ensures forall r | r in rs :: Within(r, limit)
  {
    hide Within;
    if |rs| > 0 {
      WithinMeansEach(rs[1..], limit);
      assert rs == [rs[0]] + rs[1..];
    }
  }

  lemma {:induction false} AllRequestsWithin(stream: seq<byte>, received: nat, replies: seq<Reply>, limit: usize)
    requires received <= |stream|
    ensures AllWithin(ReadFrom(stream, received, replies, limit).requests, limit)
    decreases |stream| - received, |replies|
  {
    hide AllWithin;
    if received < ProbeLimit(limit) {
      hide ReadFrom; hide LastRequest; hide GoesOn; hide Later; hide Requesting; hide Given;
      ReadStep(stream, received, replies, limit);
      var first := LastRequest(stream, received, replies, limit);
      OneWithin(first, limit);
      if GoesOn(stream, received, replies, limit) {
        AllRequestsWithin(stream, received + first.got, Later(replies), limit);
        FirstWithin(first, ReadFrom(stream, received + first.got, Later(replies), limit), limit);
      }
    } else {
      NothingRequested(stream, received, replies, limit);
      NoneWithin(limit);
    }
  }

  lemma NoneWithin(limit: usize)
    ensures AllWithin([], limit)
  {
  }

  lemma OneWithin(r: Request, limit: usize)
    requires Within(r, limit)
    ensures AllWithin([r], limit)
  {
    assert [r][1..] == [];
  }

  lemma FirstWithin(r: Request, t: Trace, limit: usize)
    requires Within(r, limit) && AllWithin(t.requests, limit)
    ensures AllWithin(Requesting(r, t).requests, limit)
  {
    assert ([r] + t.requests)[1..] == t.requests;
  }

  // ----- what the requests sum to -----

  function Total(rs: seq<Request>): nat { if |rs| == 0 then 0 else rs[0].size + Total(rs[1..]) }

  /** The bytes a run of requests delivered. */
  function Delivered(rs: seq<Request>): nat { if |rs| == 0 then 0 else rs[0].got + Delivered(rs[1..]) }

  /** What the requests asked for and did not get: an interrupted or failed one
      falls short by its whole size, a partly answered one by the rest. */
  function Shortfall(rs: seq<Request>): int { if |rs| == 0 then 0 else rs[0].size - rs[0].got + Shortfall(rs[1..]) }

  lemma {:induction false} TotalSplits(rs: seq<Request>)
    ensures Total(rs) == Delivered(rs) + Shortfall(rs)
  {
    if |rs| > 0 { TotalSplits(rs[1..]); }
  }

  /** The accounting identity, for every stream, reader and limit: the sizes
      requested sum to the bytes delivered and what each request fell short by.
      The bytes delivered are a prefix of the stream of at most the probe limit
      (the whole stream, when that is what is returned), and no request falls
      short by less than nothing. So the requests stay within limit + 1 in total
      exactly when the shortfalls fit beside the bytes. */
  lemma RequestAccounting(stream: seq<byte>, replies: seq<Reply>, limit: usize)
    ensures var t := ReadFrom(stream, 0, replies, limit);
      && Total(t.requests) == Delivered(t.requests) + Shortfall(t.requests)
      && Delivered(t.requests) <= Min(|stream|, ProbeLimit(limit))
      && (t.outcome.Whole? ==> Delivered(t.requests) == |stream|)
      && (t.outcome.TooLarge? ==> Delivered(t.requests) == ProbeLimit(limit))
      && (forall r | r in t.requests :: Within(r, limit))
      && (Total(t.requests) <= limit + 1 <==> Shortfall(t.requests) <= limit + 1 - Delivered(t.requests))
  {
    TotalSplits(ReadFrom(stream, 0, replies, limit).requests);
    Deliveries(stream, 0, replies, limit);
    RequestsStayWithinProbe(stream, 0, replies, limit);
  }

  lemma {:induction false} Deliveries(stream: seq<byte>, received: nat, replies: seq<Reply>, limit: usize)
    requires received <= |stream| && received <= ProbeLimit(limit)
    ensures var t := ReadFrom(stream, received, replies, limit);
      && received + Delivered(t.requests) <= |stream| && received + Delivered(t.requests) <= ProbeLimit(limit)
      && (t.outcome.Whole? ==> received + Delivered(t.requests) == |stream|)
      && (t.outcome.TooLarge? ==> received + Delivered(t.requests) == ProbeLimit(limit))
    decreases |stream| - received, |replies|
  {
    if received < ProbeLimit(limit) {
      hide ReadFrom; hide LastRequest; hide GoesOn; hide Later; hide Requesting; hide Given;
      ReadStep(stream, received, replies, limit);
      var r := LastRequest(stream, received, replies, limit);
      LastDelivery(r);
      if GoesOn(stream, received, replies, limit) {
        var rest := ReadFrom(stream, received + r.got, Later(replies), limit);
        Deliveries(stream, received + r.got, Later(replies), limit);
        OneDelivery(r, rest);
      }
    }
  }

  lemma LastDelivery(r: Request)
    ensures Delivered([r]) == r.got
  {
    assert [r][1..] == [];
  }

  lemma OneDelivery(r: Request, t: Trace)
    ensures Requesting(r, t).outcome == t.outcome
    ensures Delivered(Requesting(r, t).requests) == r.got + Delivered(t.requests)
    ensures forall x :: x in Requesting(r, t).requests <==> x == r || x in t.requests
  {
    assert ([r] + t.requests)[1..] == t.requests;
  }

  /** For limits below the scratch buffer the condition can be read off the first
      reply: the total stays within limit + 1 exactly when one request is made,
      and that is exactly when the first one is not interrupted and either fails,
      or meets an empty stream, or takes more than the limit at once. */
  lemma SmallLimitTotal(stream: seq<byte>, replies: seq<Reply>, limit: usize)
    requires limit < 65_536
    ensures var requests := ReadFrom(stream, 0, replies, limit).requests;
      && (Total(requests) <= limit + 1 <==> |requests| == 1)
      && (|requests| == 1 <==> !OneMoreRequest(stream, replies, limit))
  {
    var t := ReadFrom(stream, 0, replies, limit);
    var read := Given(replies, limit + 1, |stream|);
    assert t.requests[0].size == limit + 1;
    assert Total(t.requests) == limit + 1 + Total(t.requests[1..]);
    if |replies| > 0 && replies[0].Interrupted? {
      SomeRequest(stream, 0, replies[1..], limit);
      assert t.requests[1..] == ReadFrom(stream, 0, replies[1..], limit).requests;
    } else if !(|replies| > 0 && replies[0].Broken?) && 0 < read <= limit {
      SomeRequest(stream, read, Later(replies), limit);
      assert t.requests[1..] == ReadFrom(stream, read, Later(replies), limit).requests;
    }
  }

  /** The first reply leaves something to be asked for again. */
  predicate OneMoreRequest(stream: seq<byte>, replies: seq<Reply>, limit: usize) {
    || (|replies| > 0 && replies[0].Interrupted?)
    || (!(|replies| > 0 && replies[0].Broken?) && 0 < Given(replies, limit + 1, |stream|) <= limit)
  }

  lemma SomeRequest(stream: seq<byte>, received: nat, replies: seq<Reply>, limit: usize)
    requires received <= |stream| && received <= limit < READ_CHUNK
    ensures var requests := ReadFrom(stream, received, replies, limit).requests;
      |requests| > 0 && Total(requests) > 0
  {
  }

  /** So the sizes requested can sum to more than limit + 1: one interruption does it. */
  lemma RequestsCanSumPastLimit(stream: seq<byte>, limit: usize)
    requires limit < 65_536
    ensures Total(ReadFrom(stream, 0, [Interrupted], limit).requests) > limit + 1
  {
    hide ReadFrom;
    SmallLimitTotal(stream, [Interrupted], limit);
  }
}
