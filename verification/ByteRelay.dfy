/**
 The byte stream from a browser to a firewall, or back, through the connector, the Hub and
 perhaps the WireGuard agent. Each hop takes what the channel before it offers and puts it into
 the channel behind it. Between the two it may be cancelled, and then it never goes on.
 */
module ByteRelay {
  import opened Options

  newtype byte = x: int | 0 <= x < 256

  const CHUNK_SIZE := 65536

  /** A WebSocket message: binary, or anything else. */
  datatype Frame = Binary(data: seq<byte>) | NotBinary

  function Concat(frames: seq<Frame>): seq<byte> {
    if frames == [] then []
    else (if frames[0].Binary? then frames[0].data else []) + Concat(frames[1..])
  }

  /** A TCP stream, which may be read in any pieces, or a WebSocket, which keeps frames apart.
      `written` is everything that was ever put in. */
  datatype Channel =
    | Tcp(written: seq<byte>, waiting: seq<byte>)
    | WebSocket(written: seq<byte>, frames: seq<Frame>)

  datatype Hop = Idle | Holding(data: seq<byte>) | Stopped

  /** Hop `i` moves bytes from channel `i` to channel `i + 1`. */
  datatype System = System(channels: seq<Channel>, hops: seq<Hop>)

  datatype Step =
    | Send(data: seq<byte>)      // the sender writes into the first channel
    | Intrude(i: nat)            // a peer sends a frame that is not binary
    | Take(i: nat, n: nat)       // a hop reads up to `n` bytes, or one frame
    | Put(i: nat)                // and passes on what it read
    | Cancel(i: nat)             // idle timeout, lost authorization, disconnect, end of the session

  /** Browser, connector, Hub and firewall; the agent is one more hop. */
  function Start(kinds: seq<bool>): System
    requires |kinds| >= 2
  {
    System(seq(|kinds|, i requires 0 <= i < |kinds| => if kinds[i] then Tcp([], []) else WebSocket([], [])), seq(|kinds| - 1, _ => Idle))
  }

  predicate WellFormed(s: System) {
    |s.channels| == |s.hops| + 1 && |s.hops| >= 1
  }

  function Unread(c: Channel): seq<byte> {
    match c case Tcp(_, waiting) => waiting case WebSocket(_, frames) => Concat(frames)
  }

  predicate Enabled(s: System, step: Step)
    requires WellFormed(s)
  {
    match step
    case Send(data) => s.channels[0].Tcp?
    case Intrude(i) => i < |s.channels| && s.channels[i].WebSocket?
    case Take(i, n) =>
      && i < |s.hops| && s.hops[i].Idle?
      && (match s.channels[i]
          case Tcp(_, waiting) => 1 <= n <= CHUNK_SIZE && n <= |waiting|
          case WebSocket(_, frames) => frames != [])
    case Put(i) => i < |s.hops| && s.hops[i].Holding?
    case Cancel(i) => i < |s.hops|
  }

  function Append(c: Channel, data: seq<byte>): Channel {
    match c
    case Tcp(written, waiting) => Tcp(written + data, waiting + data)
    case WebSocket(written, frames) => WebSocket(written + data, frames + [Binary(data)])
  }

  /** What a hop reads, and what it leaves; a frame that is not binary ends the hop. */
  function TakeFrom(c: Channel, n: nat): (Hop, Channel)
    requires c.Tcp? ==> n <= |c.waiting|
    requires c.WebSocket? ==> c.frames != []
  {
    match c
    case Tcp(_, waiting) => (Holding(waiting[..n]), c.(waiting := waiting[n..]))
    case WebSocket(_, frames) =>
      (if frames[0].Binary? then Holding(frames[0].data) else Stopped, c.(frames := frames[1..]))
  }

  function Apply(s: System, step: Step): System
    requires WellFormed(s) && Enabled(s, step)
  {
    match step
    case Send(data) => s.(channels := s.channels[0 := Append(s.channels[0], data)])
    case Intrude(i) => s.(channels := s.channels[i := s.channels[i].(frames := s.channels[i].frames + [NotBinary])])
    case Take(i, n) =>
      var (hop, channel) := TakeFrom(s.channels[i], n);
      System(s.channels[i := channel], s.hops[i := hop])
    case Put(i) => System(s.channels[i+1 := Append(s.channels[i+1], s.hops[i].data)], s.hops[i := Idle])
    case Cancel(i) => s.(hops := s.hops[i := Stopped])
  }

  function Exec(kinds: seq<bool>, steps: seq<Step>): (s: System)
    requires |kinds| >= 2
    ensures WellFormed(s) && |s.channels| == |kinds|
  {
    if steps == [] then Start(kinds)
    else
      var before := Exec(kinds, steps[..|steps|-1]);
      if Enabled(before, steps[|steps|-1]) then Apply(before, steps[|steps|-1]) else before
  }

  // ---------- What every step keeps ----------

  function Held(hop: Hop): seq<byte> {
    if hop.Holding? then hop.data else []
  }

  /** Around a hop that still runs, every byte put in before it is behind it, in its hand, or not
      read yet, in this order; around one that stopped, what is behind it came first. */
  ghost predicate HopOk(before: Channel, hop: Hop, behind: Channel) {
    if hop.Stopped? then behind.written <= before.written
    else behind.written + Held(hop) + Unread(before) == before.written
  }

  ghost predicate Inv(s: System) {
    WellFormed(s) && AllOk(s)
  }

  lemma {:induction false} ConcatAppend(frames: seq<Frame>, f: Frame)
    ensures Concat(frames + [f]) == Concat(frames) + if f.Binary? then f.data else []
  {
    if frames == [] {
      assert frames + [f] == [f];
      assert Concat([f]) == (if f.Binary? then f.data else []) + Concat([]);
    } else {
      ConcatAppend(frames[1..], f);
      assert (frames + [f])[1..] == frames[1..] + [f];
    }
  }

  lemma AppendIs(c: Channel, data: seq<byte>)
    ensures Append(c, data).written == c.written + data && Unread(Append(c, data)) == Unread(c) + data
  {
    if c.WebSocket? {
      ConcatAppend(c.frames, Binary(data));
    }
  }

  lemma TakenIs(c: Channel, n: nat)
    requires c.Tcp? ==> n <= |c.waiting|
    requires c.WebSocket? ==> c.frames != []
    ensures var (hop, rest) := TakeFrom(c, n); rest.written == c.written && Unread(c) == Held(hop) + Unread(rest)
  {
  }

  /** More bytes come into the channel before a hop. */
  lemma MoreBefore(before: Channel, hop: Hop, behind: Channel, data: seq<byte>)
    requires HopOk(before, hop, behind)
    ensures HopOk(Append(before, data), hop, behind)
  {
    AppendIs(before, data);
    if !hop.Stopped? {
      assert behind.written + Held(hop) + (Unread(before) + data) == behind.written + Held(hop) + Unread(before) + data;
    }
  }

  lemma PutKeeps(before: Channel, data: seq<byte>, behind: Channel)
    requires HopOk(before, Holding(data), behind)
    ensures HopOk(before, Idle, Append(behind, data))
  {
    AppendIs(behind, data);
    assert behind.written + data + [] + Unread(before) == behind.written + data + Unread(before);
  }

  lemma PrefixOf(a: seq<byte>, b: seq<byte>, c: seq<byte>)
    requires a + b == c
    ensures a <= c
  {
  }

  lemma TakeKeeps(before: Channel, n: nat, behind: Channel)
    requires before.Tcp? ==> n <= |before.waiting|
    requires before.WebSocket? ==> before.frames != []
    requires HopOk(before, Idle, behind)
    ensures var (hop, rest) := TakeFrom(before, n); HopOk(rest, hop, behind)
  {
    var (hop, rest) := TakeFrom(before, n);
    var out, held, left := behind.written, Held(hop), Unread(rest);
    TakenIs(before, n);
    assert out + [] == out;
    assert out + (held + left) == before.written;
    if hop.Stopped? {
      PrefixOf(out, held + left, before.written);
    } else {
      assert out + (held + left) == out + held + left;
    }
  }

  lemma IntrudeKeeps(before: Channel, hop: Hop, behind: Channel)
    requires before.WebSocket? && HopOk(before, hop, behind)
    ensures HopOk(before.(frames := before.frames + [NotBinary]), hop, behind)
  {
    ConcatAppend(before.frames, NotBinary);
  }

  ghost predicate AllOk(s: System)
    requires WellFormed(s)
  {
    forall i :: 0 <= i < |s.hops| ==> HopOk(s.channels[i], s.hops[i], s.channels[i+1])
  }

  lemma SendKeeps(s: System, data: seq<byte>)
    requires WellFormed(s) && AllOk(s) && Enabled(s, Send(data))
    ensures AllOk(Apply(s, Send(data)))
  {
    MoreBefore(s.channels[0], s.hops[0], s.channels[1], data);
  }

  lemma IntrusionKeeps(s: System, i: nat)
    requires WellFormed(s) && AllOk(s) && Enabled(s, Intrude(i))
    ensures AllOk(Apply(s, Intrude(i)))
  {
    if i < |s.hops| {
      IntrudeKeeps(s.channels[i], s.hops[i], s.channels[i+1]);
    }
  }

  lemma TakingKeeps(s: System, i: nat, n: nat)
    requires WellFormed(s) && AllOk(s) && Enabled(s, Take(i, n))
    ensures AllOk(Apply(s, Take(i, n)))
  {
    var s' := Apply(s, Take(i, n));
    TakeKeeps(s.channels[i], n, s.channels[i+1]);
    forall k | 0 <= k < |s'.hops| ensures HopOk(s'.channels[k], s'.hops[k], s'.channels[k+1]) {
      assert HopOk(s.channels[k], s.hops[k], s.channels[k+1]);
      if k + 1 == i {
        TakenIs(s.channels[i], n);
      }
    }
  }

  lemma PuttingKeeps(s: System, i: nat)
    requires WellFormed(s) && AllOk(s) && Enabled(s, Put(i))
    ensures AllOk(Apply(s, Put(i)))
  {
    var s' := Apply(s, Put(i));
    PutKeeps(s.channels[i], s.hops[i].data, s.channels[i+1]);
    if i + 1 < |s.hops| {
      MoreBefore(s.channels[i+1], s.hops[i+1], s.channels[i+2], s.hops[i].data);
    }
    forall k | 0 <= k < |s'.hops| ensures HopOk(s'.channels[k], s'.hops[k], s'.channels[k+1]) {
      assert HopOk(s.channels[k], s.hops[k], s.channels[k+1]);
    }
  }

  lemma CancelKeeps(s: System, i: nat)
    requires WellFormed(s) && AllOk(s) && Enabled(s, Cancel(i))
    ensures AllOk(Apply(s, Cancel(i)))
  {
    var before, behind := s.channels[i], s.channels[i+1];
    assert HopOk(before, s.hops[i], behind);
    if !s.hops[i].Stopped? {
      var held, left := Held(s.hops[i]), Unread(before);
      assert behind.written + (held + left) == behind.written + held + left;
      PrefixOf(behind.written, held + left, before.written);
    }
  }

  lemma StepKeeps(s: System, step: Step)
    requires Inv(s) && Enabled(s, step)
    ensures Inv(Apply(s, step))
  {
    match step
    case Send(data) => SendKeeps(s, data);
    case Intrude(i) => IntrusionKeeps(s, i);
    case Take(i, n) => TakingKeeps(s, i, n);
    case Put(i) => PuttingKeeps(s, i);
    case Cancel(i) => CancelKeeps(s, i);
  }

  lemma {:induction false} RunKeeps(kinds: seq<bool>, steps: seq<Step>)
    requires |kinds| >= 2
    ensures Inv(Exec(kinds, steps))
  {
    if steps != [] {
      var before := Exec(kinds, steps[..|steps|-1]);
      RunKeeps(kinds, steps[..|steps|-1]);
      if Enabled(before, steps[|steps|-1]) {
        StepKeeps(before, steps[|steps|-1]);
      }
    }
  }

  // ---------- Main results, each for every run ----------

  lemma {:induction false} PrefixChain(s: System, i: nat, j: nat)
    requires Inv(s) && i <= j < |s.channels|
    ensures s.channels[j].written <= s.channels[i].written
  {
    if i < j {
      PrefixChain(s, i, j - 1);
      assert HopOk(s.channels[j-1], s.hops[j-1], s.channels[j]);
    }
  }

  /** Whatever the chunks, wherever hops are cancelled, and over any number of hops: what came out
      is a prefix of what was sent. */
  lemma DeliveredIsPrefixOfSent(kinds: seq<bool>, steps: seq<Step>)
    requires |kinds| >= 2
    ensures var s := Exec(kinds, steps);
      s.channels[|kinds|-1].written <= s.channels[0].written && (kinds[0] ==> s.channels[0].written == SentBy(steps))
  {
    if kinds[0] {
      WrittenIsSent(kinds, steps);
    }
    RunKeeps(kinds, steps);
    PrefixChain(Exec(kinds, steps), 0, |kinds| - 1);
  }

  /** Every byte the sender wrote, in order. */
  function SentBy(steps: seq<Step>): seq<byte> {
    if steps == [] then []
    else SentBy(steps[..|steps|-1]) + if steps[|steps|-1].Send? then steps[|steps|-1].data else []
  }

  lemma {:induction false} KindsStay(kinds: seq<bool>, steps: seq<Step>)
    requires |kinds| >= 2
    ensures forall i :: 0 <= i < |kinds| ==> Exec(kinds, steps).channels[i].Tcp? == kinds[i]
  {
    if steps != [] {
      KindsStay(kinds, steps[..|steps|-1]);
    }
  }

  /** The first channel, a TCP stream from the sender, has been given exactly what was sent. */
  lemma {:induction false} WrittenIsSent(kinds: seq<bool>, steps: seq<Step>)
    requires |kinds| >= 2 && kinds[0]
    ensures Exec(kinds, steps).channels[0].written == SentBy(steps)
  {
    if steps != [] {
      var before, step := Exec(kinds, steps[..|steps|-1]), steps[|steps|-1];
      WrittenIsSent(kinds, steps[..|steps|-1]);
      KindsStay(kinds, steps[..|steps|-1]);
      if step.Send? {
        AppendIs(before.channels[0], step.data);
      } else if Enabled(before, step) {
        OnlySendingWrites(before, step);
      }
    }
  }

  lemma OnlySendingWrites(s: System, step: Step)
    requires WellFormed(s) && Enabled(s, step) && !step.Send?
    ensures Apply(s, step).channels[0].written == s.channels[0].written
  {
  }

  /** The step stops hop `i`: it is cancelled, or it reads a frame that is not binary. */
  predicate Stops(s: System, step: Step, i: nat)
    requires WellFormed(s) && i < |s.hops|
  {
    || step == Cancel(i)
    || (step.Take? && step.i == i && s.hops[i] == Idle && s.channels[i].WebSocket? && s.channels[i].frames != [] && s.channels[i].frames[0] == NotBinary)
  }

  ghost predicate StopsAt(kinds: seq<bool>, steps: seq<Step>, k: nat, i: nat)
    requires |kinds| >= 2 && i < |kinds| - 1
  {
    k < |steps| && Stops(Exec(kinds, steps[..k]), steps[k], i)
  }

  lemma StoppedStepByStep(s: System, step: Step, i: nat)
    requires WellFormed(s) && i < |s.hops|
    ensures (if Enabled(s, step) then Apply(s, step) else s).hops[i] == Stopped <==> s.hops[i] == Stopped || Stops(s, step, i)
  {
  }

  /** Over a whole run: a hop has stopped if and only if some step of the run stopped it so. */
  lemma {:induction false} StoppedExactlyWhen(kinds: seq<bool>, steps: seq<Step>, i: nat)
    requires |kinds| >= 2 && i < |kinds| - 1
    ensures Exec(kinds, steps).hops[i] == Stopped <==> exists k: nat :: StopsAt(kinds, steps, k, i)
  {
    if steps == [] {
      assert forall k: nat :: !StopsAt(kinds, steps, k, i);
    } else {
      var n := |steps| - 1;
      StoppedExactlyWhen(kinds, steps[..n], i);
      StoppedStepByStep(Exec(kinds, steps[..n]), steps[n], i);
      forall k: nat ensures StopsAt(kinds, steps, k, i) <==> StopsAt(kinds, steps[..n], k, i) || (k == n && Stops(Exec(kinds, steps[..n]), steps[n], i)) {
        assert k < n ==> steps[..n][..k] == steps[..k];
      }
      if Stops(Exec(kinds, steps[..n]), steps[n], i) {
        assert StopsAt(kinds, steps, n, i);
      }
      if k: nat :| StopsAt(kinds, steps[..n], k, i) {
        assert StopsAt(kinds, steps, k, i);
      }
    }
  }

  lemma ExecNext(kinds: seq<bool>, steps: seq<Step>, step: Step)
    requires |kinds| >= 2
    ensures Exec(kinds, steps + [step]) == if Enabled(Exec(kinds, steps), step) then Apply(Exec(kinds, steps), step) else Exec(kinds, steps)
  {
    assert (steps + [step])[..|steps|] == steps;
  }

  /** A foreign frame that comes to an idle hop with nothing else to read stops it, and nothing of it is
      passed on. */
  lemma AForeignFrameStops(kinds: seq<bool>, steps: seq<Step>, i: nat)
    requires |kinds| >= 2 && i < |kinds| - 1
    requires var s := Exec(kinds, steps); s.hops[i] == Idle && s.channels[i].WebSocket? && s.channels[i].frames == []
    ensures var s, after := Exec(kinds, steps), Exec(kinds, steps + [Intrude(i)] + [Take(i, 0)]);
      after.hops == s.hops[i := Stopped] && after.channels == s.channels
  {
    var s := Exec(kinds, steps);
    ExecNext(kinds, steps, Intrude(i));
    var between := s.(channels := s.channels[i := s.channels[i].(frames := [NotBinary])]);
    assert s.channels[i].frames + [NotBinary] == [NotBinary];
    assert Exec(kinds, steps + [Intrude(i)]) == between;
    ExecNext(kinds, steps + [Intrude(i)], Take(i, 0));
    assert [NotBinary][1..] == [] && s.channels[i].(frames := []) == s.channels[i];
  }

  /** Nothing is on its way: no hop stopped, none holds anything, and no channel but the last has
      unread bytes. */
  ghost predicate Quiet(s: System)
    requires WellFormed(s)
  {
    forall i :: 0 <= i < |s.hops| ==> s.hops[i] != Stopped && Held(s.hops[i]) == [] && Unread(s.channels[i]) == []
  }

  lemma {:induction false} QuietChain(s: System, j: nat)
    requires Inv(s) && Quiet(s) && j < |s.channels|
    ensures s.channels[j].written == s.channels[0].written
  {
    if j > 0 {
      QuietChain(s, j - 1);
      assert HopOk(s.channels[j-1], s.hops[j-1], s.channels[j]);
    }
  }

  /** When no hop was stopped and nothing is on its way, everything sent has come out. */
  lemma QuietMeansDelivered(kinds: seq<bool>, steps: seq<Step>)
    requires |kinds| >= 2 && Quiet(Exec(kinds, steps))
    ensures var s := Exec(kinds, steps);
      s.channels[|kinds|-1].written == s.channels[0].written && (kinds[0] ==> s.channels[0].written == SentBy(steps))
  {
    if kinds[0] {
      WrittenIsSent(kinds, steps);
    }
    RunKeeps(kinds, steps);
    QuietChain(Exec(kinds, steps), |kinds| - 1);
  }

  lemma StoppedStays(s: System, step: Step, i: nat)
    requires WellFormed(s) && Enabled(s, step) && i < |s.hops| && s.hops[i].Stopped?
    ensures var s' := Apply(s, step); s'.hops[i].Stopped? && s'.channels[i+1].written == s.channels[i+1].written
  {
  }

  /** A hop that had stopped after the first `k` steps stays stopped for the rest of the run, and
      nothing more comes out behind it, nor at the far end than was written behind it by early. */
  lemma {:induction false} NothingPassesAStoppedHop(kinds: seq<bool>, steps: seq<Step>, k: nat, i: nat)
    requires |kinds| >= 2 && k <= |steps| && i < |kinds| - 1
    ensures var early, now := Exec(kinds, steps[..k]), Exec(kinds, steps);
      early.hops[i].Stopped? ==>
        && now.hops[i].Stopped? && now.channels[i+1].written == early.channels[i+1].written
        && now.channels[|kinds|-1].written <= early.channels[i+1].written
    decreases |steps|
  {
    var n := |steps| - 1;
    if k == |steps| {
      assert steps[..k] == steps;
    } else {
      assert steps[..n][..k] == steps[..k];
      NothingPassesAStoppedHop(kinds, steps[..n], k, i);
      if Exec(kinds, steps[..n]).hops[i].Stopped? && Enabled(Exec(kinds, steps[..n]), steps[n]) {
        StoppedStays(Exec(kinds, steps[..n]), steps[n], i);
      }
    }
    RunKeeps(kinds, steps);
    PrefixChain(Exec(kinds, steps), i + 1, |kinds| - 1);
  }

  /** Frames no larger than a chunk. */
  predicate Fits(data: seq<byte>) {
    |data| <= CHUNK_SIZE
  }

  ghost predicate AllFit(s: System)
    requires WellFormed(s)
  {
    && (forall i :: 0 <= i < |s.hops| ==> Fits(Held(s.hops[i])))
    && (forall i, k :: 0 <= i < |s.channels| && s.channels[i].WebSocket? && 0 <= k < |s.channels[i].frames| && s.channels[i].frames[k].Binary?
          ==> Fits(s.channels[i].frames[k].data))
  }

  lemma FitKept(s: System, step: Step)
    requires WellFormed(s) && AllFit(s) && Enabled(s, step)
    ensures AllFit(Apply(s, step))
  {
  }

  /** No hop ever sends a frame of more than 64 KiB. */
  lemma {:induction false} FramesFitAChunk(kinds: seq<bool>, steps: seq<Step>)
    requires |kinds| >= 2
    ensures AllFit(Exec(kinds, steps))
  {
    if steps != [] {
      FramesFitAChunk(kinds, steps[..|steps|-1]);
      var before := Exec(kinds, steps[..|steps|-1]);
      if Enabled(before, steps[|steps|-1]) {
        FitKept(before, steps[|steps|-1]);
      }
    }
  }

  // ---------- Everything sent can come out ----------

  /** No hop has stopped, and no frame will stop one. */
  ghost predicate Flows(s: System)
    requires WellFormed(s)
  {
    && (forall i :: 0 <= i < |s.hops| ==> s.hops[i] != Stopped)
    && (forall i, k :: 0 <= i < |s.channels| && s.channels[i].WebSocket? && 0 <= k < |s.channels[i].frames| ==> s.channels[i].frames[k].Binary?)
  }

  lemma FlowsOn(s: System, step: Step)
    requires WellFormed(s) && Flows(s) && Enabled(s, step) && !step.Intrude? && !step.Cancel?
    ensures Flows(Apply(s, step))
  {
    if step.Put? {
      assert step.i + 1 < |s.channels|;
    }
  }

  lemma {:induction false} UndisturbedFlows(kinds: seq<bool>, steps: seq<Step>)
    requires |kinds| >= 2 && forall k :: 0 <= k < |steps| ==> !steps[k].Intrude? && !steps[k].Cancel?
    ensures Flows(Exec(kinds, steps))
  {
    if steps != [] {
      var before := Exec(kinds, steps[..|steps|-1]);
      UndisturbedFlows(kinds, steps[..|steps|-1]);
      if Enabled(before, steps[|steps|-1]) {
        FlowsOn(before, steps[|steps|-1]);
      }
    }
  }

  /** How often a hop has to read the channel at most. */
  function Pieces(c: Channel): nat {
    match c case Tcp(_, waiting) => |waiting| case WebSocket(_, frames) => |frames|
  }

  ghost predicate ClearUpTo(s: System, i: nat)
    requires WellFormed(s) && i <= |s.hops|
  {
    forall j :: 0 <= j < i ==> s.hops[j] == Idle && Pieces(s.channels[j]) == 0
  }

  predicate Moves(step: Step) {
    step.Take? || step.Put?
  }

  /** What hop `i` does next when there is something to do. */
  function NextMove(s: System, i: nat): (step: Step)
    requires WellFormed(s) && Flows(s) && i < |s.hops| && (s.hops[i].Holding? || Pieces(s.channels[i]) > 0)
    ensures Moves(step) && Enabled(s, step)
  {
    if s.hops[i].Holding? then Put(i)
    else match s.channels[i]
      case Tcp(_, waiting) => Take(i, if |waiting| <= CHUNK_SIZE then |waiting| else CHUNK_SIZE)
      case WebSocket(_, _) => Take(i, 0)
  }

  function Work(s: System, i: nat): nat
    requires WellFormed(s) && i < |s.hops|
  {
    2 * Pieces(s.channels[i]) + if s.hops[i].Holding? then 1 else 0
  }

  lemma MoveWorks(s: System, i: nat)
    requires WellFormed(s) && Flows(s) && i < |s.hops| && (s.hops[i].Holding? || Pieces(s.channels[i]) > 0)
    ensures var s' := Apply(s, NextMove(s, i));
      && WellFormed(s') && |s'.hops| == |s.hops| && Flows(s') && Work(s', i) < Work(s, i)
      && s'.channels[0].written == s.channels[0].written
      && forall j :: 0 <= j < i ==> s'.hops[j] == s.hops[j] && s'.channels[j] == s.channels[j]
  {
    FlowsOn(s, NextMove(s, i));
  }

  lemma Extend(kinds: seq<bool>, steps: seq<Step>, step: Step)
    requires |kinds| >= 2 && Enabled(Exec(kinds, steps), step)
    ensures Exec(kinds, steps + [step]) == Apply(Exec(kinds, steps), step)
  {
    assert (steps + [step])[..|steps|] == steps;
  }

  ghost predicate AllMove(steps: seq<Step>) {
    forall k :: 0 <= k < |steps| ==> Moves(steps[k])
  }

  lemma Joined(a: seq<Step>, b: seq<Step>, c: seq<Step>)
    requires AllMove(b) && AllMove(c)
    ensures a + b + c == a + (b + c) && AllMove(b + c)
  {
  }

  /** Hop `i` alone moves on what is in front of it. */
  lemma {:induction false} DrainHop(kinds: seq<bool>, steps: seq<Step>, s: System, i: nat) returns (more: seq<Step>, after: System)
    requires |kinds| >= 2 && Exec(kinds, steps) == s && Flows(s) && i < |s.hops| && ClearUpTo(s, i)
    ensures AllMove(more) && Exec(kinds, steps + more) == after && Flows(after) && ClearUpTo(after, i + 1)
    ensures after.channels[0].written == s.channels[0].written
    decreases Work(s, i)
  {
    if s.hops[i].Holding? || Pieces(s.channels[i]) > 0 {
      var step := NextMove(s, i);
      MoveWorks(s, i);
      Extend(kinds, steps, step);
      var rest;
      rest, after := DrainHop(kinds, steps + [step], Apply(s, step), i);
      Joined(steps, [step], rest);
      more := [step] + rest;
    } else {
      more, after := [], s;
      assert steps + more == steps;
    }
  }

  lemma {:induction false} DrainFrom(kinds: seq<bool>, steps: seq<Step>, s: System, i: nat) returns (more: seq<Step>, after: System)
    requires |kinds| >= 2 && Exec(kinds, steps) == s && Flows(s) && i <= |s.hops| && ClearUpTo(s, i)
    ensures AllMove(more) && Exec(kinds, steps + more) == after && Flows(after) && ClearUpTo(after, |kinds| - 1)
    ensures after.channels[0].written == s.channels[0].written
    decreases |s.hops| - i
  {
    if i == |s.hops| {
      more, after := [], s;
      assert steps + more == steps;
    } else {
      var first, between := DrainHop(kinds, steps, s, i);
      var rest;
      rest, after := DrainFrom(kinds, steps + first, between, i + 1);
      Joined(steps, first, rest);
      more := first + rest;
    }
  }

  lemma ClearIsQuiet(s: System)
    requires WellFormed(s) && ClearUpTo(s, |s.hops|)
    ensures Quiet(s)
  {
  }

  /** As long as nobody disturbs the relay, every byte sent can still come out: any such run can be
      continued, by reading and passing on alone, until the far end has exactly what was sent. */
  lemma EverythingSentCanArrive(kinds: seq<bool>, steps: seq<Step>)
    requires |kinds| >= 2 && kinds[0] && forall k :: 0 <= k < |steps| ==> !steps[k].Intrude? && !steps[k].Cancel?
    ensures exists more: seq<Step> :: AllMove(more) && Exec(kinds, steps + more).channels[|kinds|-1].written == SentBy(steps)
  {
    UndisturbedFlows(kinds, steps);
    var more, after := DrainFrom(kinds, steps, Exec(kinds, steps), 0);
    ClearIsQuiet(after);
    RunKeeps(kinds, steps + more);
    QuietChain(after, |kinds| - 1);
    WrittenIsSent(kinds, steps);
  }
}
