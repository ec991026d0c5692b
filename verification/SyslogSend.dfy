/**
 * One forwarding pass as its loop of batches, and the octet-counted stream a
 * TCP collector reads (section 3.4.1 of RFC 6587). Messages are byte strings.
 */
module SyslogSend {
  import opened Base
  import opened Syslog

  /** Stands for the error of a send that fails. */
  const UNREACHABLE := 502

  /** How many of `n` messages went out in batches sent whole. */
  function InWholeBatches(n: nat): nat { if n < BATCH then 0 else BATCH + InWholeBatches(n - BATCH) }

  // ---- A pass as steps of the machine ----

  /** Forwarding has begun, the pass is idle, and `pending` are the eligible events of `s` in order. */
  ghost predicate Shows(s: State, pending: seq<Event>, delivered: seq<Event>) {
    && s.start.Some? && PassOf(s, 0).Idle? && s.delivered == delivered && Ascending(pending)
    && forall e :: Eligible(s, e) <==> e in pending
  }

  /** `steps` lead from one state of the machine to another. */
  ghost predicate Leads(s: State, steps: seq<Step>, after: State)
    decreases |steps|
  {
    if steps == [] then s == after else Enabled(s, steps[0]) && Leads(Next(s, steps[0]), steps[1..], after)
  }

  ghost predicate LeadsToShow(s: State, steps: seq<Step>, after: State, pending: seq<Event>, delivered: seq<Event>) {
    Leads(s, steps, after) && Shows(after, pending, delivered)
  }

  lemma {:induction false} LeadsOn(s: State, steps: seq<Step>, mid: State, more: seq<Step>, after: State)
    requires Leads(s, steps, mid) && Leads(mid, more, after)
    ensures Leads(s, steps + more, after)
    decreases |steps|
  {
    if steps == [] {
      assert steps + more == more;
    } else {
      LeadsOn(Next(s, steps[0]), steps[1..], mid, more, after);
      assert (steps + more)[1..] == steps[1..] + more;
    }
  }

  lemma OneLeads(s: State, step: Step)
    requires Enabled(s, step)
    ensures Leads(s, [step], Next(s, step))
  {
    assert [step][1..] == [];
  }

  /** A run followed by steps that lead on is a run, so what every run keeps holds after each pass. */
  lemma {:induction false} LeadsExtendRun(run: seq<State>, steps: seq<Step>, more: seq<Step>, after: State)
    returns (longer: seq<State>)
    requires IsRun(run, steps) && Leads(run[|steps|], more, after)
    ensures IsRun(longer, steps + more) && longer[|steps + more|] == after
    decreases |more|
  {
    if more == [] {
      assert steps + more == steps;
      longer := run;
    } else {
      longer := LeadsExtendRun(run + [Next(run[|steps|], more[0])], steps + [more[0]], more[1..], after);
      assert steps + [more[0]] + more[1..] == steps + more;
    }
  }

  lemma {:induction false} HandsOver(s: State, rows: seq<Event>, n: nat) returns (steps: seq<Step>)
    requires PassOf(s, 0) == Sending(rows, 0) && n <= |rows|
    ensures Leads(s, steps, s.(passes := s.passes[0 := Sending(rows, n)], delivered := s.delivered + rows[..n]))
  {
    if n == 0 {
      steps := [];
      assert s.passes[0 := Sending(rows, 0)] == s.passes && s.delivered + rows[..0] == s.delivered;
    } else {
      var before := HandsOver(s, rows, n - 1);
      var mid := s.(passes := s.passes[0 := Sending(rows, n - 1)], delivered := s.delivered + rows[..n - 1]);
      OneLeads(mid, HandOver(0));
      assert rows[..n - 1] + [rows[n - 1]] == rows[..n];
      assert s.delivered + rows[..n - 1] + [rows[n - 1]] == s.delivered + rows[..n];
      assert mid.passes[0 := Sending(rows, n)] == s.passes[0 := Sending(rows, n)];
      LeadsOn(s, before, mid, [HandOver(0)], Next(mid, HandOver(0)));
      steps := before + [HandOver(0)];
    }
  }

  lemma BatchIsFirst(s: State, pending: seq<Event>, delivered: seq<Event>, n: nat)
    requires Shows(s, pending, delivered) && 0 < n <= |pending| && n <= BATCH && (n < |pending| ==> n == BATCH)
    ensures IsBatch(s, pending[..n])
  {
    var rows := pending[..n];
    assert forall j :: 0 <= j < n ==> rows[j] == pending[j] && rows[j] in rows;
    forall e | e in s.events && Eligible(s, e) && e !in rows ensures |rows| == BATCH && Before(rows[n - 1], e) {
      var i :| 0 <= i < |pending| && pending[i] == e;
    }
  }

  /** With the mark on the last of the first `n` pending events, the others are what is left to forward. */
  lemma RestIsEligible(s: State, pending: seq<Event>, delivered: seq<Event>, n: nat, after: State)
    requires Shows(s, pending, delivered) && 0 < n <= |pending|
    requires after.events == s.events && after.horizon == s.horizon && after.mark == pending[n - 1]
    ensures forall e :: Eligible(after, e) <==> e in pending[n..]
    ensures Ascending(pending[n..])
  {
    assert pending[n - 1] in pending;
    forall e ensures Eligible(after, e) <==> e in pending[n..] {
      if Eligible(after, e) {
        assert Eligible(s, e);
        var i :| 0 <= i < |pending| && pending[i] == e;
        assert i >= n && pending[n..][i - n] == e;
      }
      if e in pending[n..] {
        var i :| 0 <= i < |pending[n..]| && pending[n..][i] == e;
        assert pending[n + i] == e && e in pending;
      }
    }
  }

  /** One batch: read, handed over, and the mark moved; or handed over in part and given up. */
  lemma PassSteps(s: State, pending: seq<Event>, delivered: seq<Event>, rows: seq<Event>, left: nat)
    returns (steps: seq<Step>, after: State)
    requires Shows(s, pending, delivered) && rows != [] && rows <= pending
    requires |rows| <= BATCH && (|rows| < |pending| ==> |rows| == BATCH)
    ensures Leads(s, steps, after)
    ensures if |rows| <= left then Shows(after, pending[|rows|..], delivered + rows)
            else Shows(after, pending, delivered + rows[..left])
  {
    var n := if |rows| <= left then |rows| else left;
    assert pending[..|rows|] == rows;
    BatchIsFirst(s, pending, delivered, |rows|);
    var read := Next(s, Read(0, rows));
    OneLeads(s, Read(0, rows));
    var over := HandsOver(read, rows, n);
    var mid := read.(passes := read.passes[0 := Sending(rows, n)], delivered := read.delivered + rows[..n]);
    var last := if n == |rows| then Advance(0) else Give(0);
    OneLeads(mid, last);
    after := Next(mid, last);
    LeadsOn(read, over, mid, [last], after);
    LeadsOn(s, [Read(0, rows)], read, over + [last], after);
    steps := [Read(0, rows)] + (over + [last]);
    if n == |rows| {
      assert rows[..n] == rows && rows[n - 1] == pending[n - 1] && pending[n - 1] in pending;
      assert Eligible(s, rows[n - 1]);
      RestIsEligible(s, pending, delivered, n, after);
    } else {
      assert forall e :: Eligible(after, e) <==> Eligible(s, e);
    }
  }

  lemma BatchLeads(
    s: State, steps: seq<Step>, mid: State, pending: seq<Event>, delivered: seq<Event>, rows: seq<Event>, left: nat)
    returns (all: seq<Step>, after: State)
    requires LeadsToShow(s, steps, mid, pending, delivered) && rows != [] && rows <= pending
    requires |rows| <= BATCH && (|rows| < |pending| ==> |rows| == BATCH)
    ensures |rows| <= left ==> LeadsToShow(s, all, after, pending[|rows|..], delivered + rows)
    ensures |rows| > left ==> LeadsToShow(s, all, after, pending, delivered + rows[..left])
  {
    var more: seq<Step>;
    more, after := PassSteps(mid, pending, delivered, rows, left);
    LeadsOn(s, steps, mid, more, after);
    all := steps + more;
  }

  /** Handing over the first `n` of the next rows extends what was handed over of the pending ones. */
  lemma HandedOver<T>(was: seq<T>, trail: seq<T>, start: nat, sent: nat, rows: seq<T>, n: nat)
    requires start + sent + |rows| <= |trail| && rows == trail[start + sent..start + sent + |rows|] && n <= |rows|
    ensures was + trail[start..][..sent] + rows[..n] == was + trail[start..][..sent + n]
  {
    assert trail[start..][..sent] + rows[..n] == trail[start..][..sent + n];
  }

  lemma {:induction false} WholeBatches(sent: nat, accepts: nat)
    requires InWholeBatches(sent) == sent <= accepts < sent + BATCH
    ensures InWholeBatches(accepts) == sent
  {
    if sent < BATCH {
    } else {
      WholeBatches(sent - BATCH, accepts - BATCH);
    }
  }

  lemma {:induction false} OneMoreBatch(sent: nat)
    requires InWholeBatches(sent) == sent
    ensures InWholeBatches(sent + BATCH) == sent + BATCH
  {
  }

  // ---- The pass ----

  /** The trail in forwarding order while no event commits; `marked` of its events are at or before the mark. */
  class Sink {
    var trail: seq<Event>
    var marked: nat
    var delivered: seq<Event>

    constructor (trail: seq<Event>, marked: nat)
      ensures this.trail == trail && this.marked == marked && delivered == []
    {
      this.trail, this.marked, delivered := trail, marked, [];
    }

    /**
     * Forwards every pending event; the collector takes `accepts` more
     * messages before sends fail. A failure leaves the mark after the last
     * whole batch, so the next pass sends the broken batch again. Where the
     * sink shows a state `s` of the forwarding machine, the pass is a sequence
     * of its steps.
     */
    method ForwardAudit(accepts: nat, ghost s: State)
        returns (r: Result<nat>, ghost steps: seq<Step>, ghost after: State)
      requires marked <= |trail| && Shows(s, trail[marked..], delivered)
      modifies this
      ensures marked <= |trail| && LeadsToShow(s, steps, after, trail[marked..], delivered)
      ensures trail == old(trail)
      ensures var pending := old(trail[marked..]);
        var taken := if |pending| <= accepts then |pending| else accepts;
        && delivered == old(delivered) + pending[..taken]
        && r == (if |pending| <= accepts then Ok(|pending|) else Err(UNREACHABLE))
        && marked == old(marked) + (if |pending| <= accepts then |pending| else InWholeBatches(accepts))
    {
      var sent, left := 0, accepts;
      ghost var pending, was := trail[marked..], delivered;
      steps, after := [], s;
      while true
        invariant trail == old(trail) && marked == old(marked) + sent <= |trail|
        invariant LeadsToShow(s, steps, after, trail[marked..], delivered)
        invariant left == accepts - sent >= 0 && InWholeBatches(sent) == sent
        invariant delivered == was + pending[..sent]
        decreases |trail| - marked
      {
        var rows := trail[marked..if marked + BATCH < |trail| then marked + BATCH else |trail|];
        if rows == [] { return Ok(sent), steps, after; }
        steps, after := BatchLeads(s, steps, after, trail[marked..], delivered, rows, left);
        HandedOver(was, trail, old(marked), sent, rows, if |rows| <= left then |rows| else left);
        var ok := Send(rows, left);
        if !ok {
          WholeBatches(sent, accepts);
          return Err(UNREACHABLE), steps, after;
        }
        assert trail[marked..][|rows|..] == trail[marked + |rows|..];
        marked, sent, left := marked + |rows|, sent + |rows|, left - |rows|;
        if |rows| < BATCH { return Ok(sent), steps, after; }
        OneMoreBatch(sent - BATCH);
      }
    }

    /** Hands messages over until the collector takes no more. */
    method Send(rows: seq<Event>, accepts: nat) returns (ok: bool)
      modifies this`delivered
      ensures ok <==> |rows| <= accepts
      ensures delivered == old(delivered) + rows[..if ok then |rows| else accepts]
    {
      for i := 0 to |rows|
        invariant i <= accepts && delivered == old(delivered) + rows[..i]
      {
        if i == accepts { return false; }
        delivered := delivered + [rows[i]];
        assert rows[..i] + [rows[i]] == rows[..i + 1];
      }
      return true;
    }
  }

  // ---- Octet counting ----

  function Decimal(n: nat): string {
    (if n < 10 then "" else Decimal(n / 10)) + [('0' as int + n % 10) as char]
  }

  function Frame(message: string): string { Decimal(|message|) + (" " + message) }

  function Frames(messages: seq<string>): string {
    if messages == [] then "" else Frame(messages[0]) + Frames(messages[1..])
  }

  /** The count at the head of the stream and what follows its space; nothing when the stream ends or breaks first. */
  function Count(stream: string, n: nat): (r: Option<(nat, string)>)
    ensures r.Some? ==> |r.value.1| < |stream|
  {
    if stream == "" then None
    else if stream[0] == ' ' then Some((n, stream[1..]))
    else if '0' <= stream[0] <= '9' then Count(stream[1..], 10 * n + (stream[0] as int - '0' as int))
    else None
  }

  /** The messages a collector has in full. */
  function Received(stream: string): seq<string>
    decreases |stream|
  {
    match Count(stream, 0)
    case None => []
    case Some((n, rest)) => if n > |rest| then [] else [rest[..n]] + Received(rest[n..])
  }

  lemma {:induction false} CountsDecimal(n: nat, tail: string)
    ensures Count(Decimal(n) + tail, 0) == Count(tail, n)
  {
    var d := [('0' as int + n % 10) as char];
    assert (d + tail)[1..] == tail;
    if n < 10 {
      assert Decimal(n) + tail == d + tail;
    } else {
      CountsDecimal(n / 10, d + tail);
      assert Decimal(n) + tail == Decimal(n / 10) + (d + tail);
    }
  }

  lemma {:induction false} AllDigits(n: nat)
    ensures forall c :: c in Decimal(n) ==> '0' <= c <= '9'
  {
    if n < 10 {
    } else {
      AllDigits(n / 10);
    }
  }

  lemma {:induction false} NoCountYet(stream: string, n: nat)
    requires forall i :: 0 <= i < |stream| ==> '0' <= stream[i] <= '9'
    ensures Count(stream, n).None?
  {
    if stream == "" {
    } else {
      NoCountYet(stream[1..], 10 * n + (stream[0] as int - '0' as int));
    }
  }

  lemma WholeFrame(message: string, tail: string)
    ensures Received(Frame(message) + tail) == [message] + Received(tail)
  {
    var n := |message|;
    assert Frame(message) + tail == Decimal(n) + (" " + (message + tail));
    CountsDecimal(n, " " + (message + tail));
    assert (" " + (message + tail))[1..] == message + tail;
    assert (message + tail)[..n] == message && (message + tail)[n..] == tail;
  }

  /** A frame cut anywhere short of its end yields nothing. */
  lemma CutFrame(message: string, k: nat)
    requires k < |Frame(message)|
    ensures Received(Frame(message)[..k]) == []
  {
    var count := Decimal(|message|);
    var cut := Frame(message)[..k];
    if k <= |count| {
      assert cut == count[..k];
      AllDigits(|message|);
      assert forall i :: 0 <= i < k ==> cut[i] == count[i] && count[i] in count;
      NoCountYet(cut, 0);
    } else {
      var rest := message[..k - |count| - 1];
      assert cut == count + (" " + rest);
      CountsDecimal(|message|, " " + rest);
      assert (" " + rest)[1..] == rest;
    }
  }

  /** However short a send is cut, the collector has some of the messages, the first ones, each whole and in order. */
  lemma {:induction false} CutSendIsPrefix(messages: seq<string>, k: nat) returns (whole: nat)
    requires k <= |Frames(messages)|
    ensures whole <= |messages| && Received(Frames(messages)[..k]) == messages[..whole]
    ensures k == |Frames(messages)| ==> whole == |messages|
    decreases |messages|
  {
    if messages == [] {
      whole := 0;
      assert Frames(messages)[..k] == "";
    } else {
      var frame, rest := Frame(messages[0]), Frames(messages[1..]);
      if k < |frame| {
        whole := 0;
        assert Frames(messages)[..k] == frame[..k];
        CutFrame(messages[0], k);
      } else {
        var more := CutSendIsPrefix(messages[1..], k - |frame|);
        whole := more + 1;
        assert Frames(messages)[..k] == frame + rest[..k - |frame|];
        WholeFrame(messages[0], rest[..k - |frame|]);
        assert [messages[0]] + messages[1..][..more] == messages[..whole];
      }
    }
  }

  /** The whole stream decodes to exactly the messages that were framed. */
  lemma FramesDecode(messages: seq<string>)
    ensures Received(Frames(messages)) == messages
  {
    var whole := CutSendIsPrefix(messages, |Frames(messages)|);
    assert Frames(messages)[..|Frames(messages)|] == Frames(messages);
  }
}
