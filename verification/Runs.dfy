/**
 Runs of a stream decoder, over whatever its single messages are.

 The stream loops of FM1200, GT06, TR06 and IntelliTrac all do the same: take one message, send it
 to the store, answer it, and stop at the first error. `RunFrom` is what such a loop makes of a
 stream from one position on.
 */
module Runs {
  import opened Bytes
  import opened Streams

  /** What one message comes to. A rejected message may already have leaked a reply to the store. */
  datatype Message<T> =
    | Accepted(body: T, next: nat)
    | Rejected(error: Error, leaked: seq<seq<byte>>)

  /**
   How a decoder treats an accepted message: its acks to the device, its replies for the store,
   whether it is delivered before it is acked, and the error of an ack that cannot be written.
   */
  datatype Manners<!T> = Manners(
    acks: T -> seq<seq<byte>>, replies: T -> seq<seq<byte>>, deliverFirst: bool, writeError: Error)

  /** What the message at each position comes to, and where the stream ends. */
  datatype Messages<!T> = Messages(at: nat -> Message<T>, end: nat, manners: Manners<T>)

  /** Every accepted message takes bytes, and no more than there are. */
  ghost predicate Progress<T>(ms: Messages<T>) {
    forall p: nat :: ms.at(p).Accepted? ==> p < ms.at(p).next <= ms.end
  }

  /** What a run delivers before it ends, and the error that ends it. */
  datatype Run<T> = Run(bodies: seq<T>, acks: seq<seq<byte>>, replies: seq<seq<byte>>, error: Error)

  function Continue<T>(m: Manners<T>, b: T, r: Run<T>): Run<T> {
    Run([b] + r.bodies, m.acks(b) + r.acks, m.replies(b) + r.replies, r.error)
  }

  function Unanswered<T>(m: Manners<T>, b: T): Run<T> {
    Run(if m.deliverFirst then [b] else [], [], [], m.writeError)
  }

  /** Messages from `p` on until one is rejected or an ack cannot be written; `writes` more can be. */
  ghost function RunFrom<T>(ms: Messages<T>, p: nat, writes: nat): Run<T>
    requires Progress(ms) && p <= ms.end
    decreases ms.end - p
  {
    match ms.at(p)
    case Rejected(e, leaked) => Run([], [], leaked, e)
    case Accepted(b, next) =>
      if |ms.manners.acks(b)| > writes then Unanswered(ms.manners, b)
      else Continue(ms.manners, b, RunFrom(ms, next, writes - |ms.manners.acks(b)|))
  }

  /** The answers to one message after another. */
  function All<T>(answers: T -> seq<seq<byte>>, bs: seq<T>): seq<seq<byte>> {
    if bs == [] then [] else answers(bs[0]) + All(answers, bs[1..])
  }

  /** The bodies, acks and replies of `bs`, then whatever `r` adds. */
  function After<T>(m: Manners<T>, bs: seq<T>, r: Run<T>): Run<T> {
    Run(bs + r.bodies, All(m.acks, bs) + r.acks, All(m.replies, bs) + r.replies, r.error)
  }

  lemma AfterLast<T>(m: Manners<T>, bs: seq<T>, e: Error)
    ensures After(m, bs, Run([], [], [], e)) == Run(bs, All(m.acks, bs), All(m.replies, bs), e)
  {}

  lemma ContinueAfter<T>(m: Manners<T>, b: T, bs: seq<T>, r: Run<T>)
    ensures Continue(m, b, After(m, bs, r)) == After(m, [b] + bs, r)
  {}

  // ----- Chains of accepted messages -----

  /** Messages accepted one after another from `p` to `q`. */
  predicate Chain<T(==)>(ms: Messages<T>, p: nat, bs: seq<T>, q: nat)
    decreases |bs|
  {
    if bs == [] then p == q else
      match ms.at(p)
      case Rejected(_, _) => false
      case Accepted(b, next) => b == bs[0] && Chain(ms, next, bs[1..], q)
  }

  lemma {:induction false} RunThroughChain<T>(ms: Messages<T>, p: nat, bs: seq<T>, q: nat, writes: nat)
    requires Progress(ms) && p <= ms.end && Chain(ms, p, bs, q) && |All(ms.manners.acks, bs)| <= writes
    ensures q <= ms.end
    ensures RunFrom(ms, p, writes) == After(ms.manners, bs, RunFrom(ms, q, writes - |All(ms.manners.acks, bs)|))
    decreases |bs|
  {
    var m := ms.manners;
    if bs != [] {
      var b, next := ms.at(p).body, ms.at(p).next;
      RunThroughChain(ms, next, bs[1..], q, writes - |m.acks(b)|);
      ContinueAfter(m, b, bs[1..], RunFrom(ms, q, writes - |All(m.acks, bs)|));
      assert bs == [b] + bs[1..];
    }
  }

  /** Whatever a run delivers is a chain of accepted messages from its start on. */
  lemma {:induction false} RunIsChain<T>(ms: Messages<T>, p: nat, writes: nat) returns (q: nat)
    requires Progress(ms) && p <= ms.end
    ensures Chain(ms, p, RunFrom(ms, p, writes).bodies, q)
    decreases ms.end - p
  {
    q := p;
    if ms.at(p).Accepted? {
      var b, next := ms.at(p).body, ms.at(p).next;
      if |ms.manners.acks(b)| <= writes {
        q := RunIsChain(ms, next, writes - |ms.manners.acks(b)|);
      } else if ms.manners.deliverFirst {
        q := next;
      }
    }
  }

  /**
   A run goes through the messages `done` to `q` and stops there: either the message at `q` is
   rejected, or it is accepted and its acks no longer fit the writes that are left.
   */
  ghost predicate StopsAt<T>(ms: Messages<T>, p: nat, writes: nat, done: seq<T>, q: nat, run: Run<T>) {
    && Chain(ms, p, done, q) && |All(ms.manners.acks, done)| <= writes
    && match ms.at(q)
       case Rejected(e, leaked) => run == After(ms.manners, done, Run([], [], leaked, e))
       case Accepted(b, _) =>
         && |All(ms.manners.acks, done)| + |ms.manners.acks(b)| > writes
         && run == After(ms.manners, done, Unanswered(ms.manners, b))
  }

  lemma StopsHere<T>(ms: Messages<T>, p: nat, writes: nat)
    requires Progress(ms) && p <= ms.end
    requires ms.at(p).Accepted? ==> |ms.manners.acks(ms.at(p).body)| > writes
    ensures StopsAt(ms, p, writes, [], p, RunFrom(ms, p, writes))
  {
    var run := RunFrom(ms, p, writes);
    assert [] + run.bodies == run.bodies && [] + run.acks == run.acks && [] + run.replies == run.replies;
  }

  lemma StopsLater<T>(ms: Messages<T>, p: nat, writes: nat, done: seq<T>, q: nat, run: Run<T>)
    requires ms.at(p).Accepted? && |ms.manners.acks(ms.at(p).body)| <= writes
    requires StopsAt(ms, ms.at(p).next, writes - |ms.manners.acks(ms.at(p).body)|, done, q, run)
    ensures StopsAt(ms, p, writes, [ms.at(p).body] + done, q, Continue(ms.manners, ms.at(p).body, run))
  {
    var b := ms.at(p).body;
    assert ([b] + done)[1..] == done;
    match ms.at(q)
    case Rejected(e, leaked) => ContinueAfter(ms.manners, b, done, Run([], [], leaked, e));
    case Accepted(x, _) => ContinueAfter(ms.manners, b, done, Unanswered(ms.manners, x));
  }

  /** Where and why a run stops, and all that it has done until then. */
  lemma {:induction false} RunStops<T>(ms: Messages<T>, p: nat, writes: nat) returns (done: seq<T>, q: nat)
    requires Progress(ms) && p <= ms.end
    ensures StopsAt(ms, p, writes, done, q, RunFrom(ms, p, writes))
    decreases ms.end - p
  {
    if ms.at(p).Accepted? && |ms.manners.acks(ms.at(p).body)| <= writes {
      var rest := writes - |ms.manners.acks(ms.at(p).body)|;
      var after;
      after, q := RunStops(ms, ms.at(p).next, rest);
      StopsLater(ms, p, writes, after, q, RunFrom(ms, ms.at(p).next, rest));
      done := [ms.at(p).body] + after;
    } else {
      done, q := [], p;
      StopsHere(ms, p, writes);
    }
  }

  // ----- Streams of frames -----

  /** How messages travel: the frame of each, the body it is received as, and which ones count. */
  datatype Framing<!F, T> = Framing(frame: F -> seq<byte>, body: F -> T, valid: F -> bool)

  function Frames<F, T>(framing: Framing<F, T>, xs: seq<F>): seq<byte> {
    if xs == [] then [] else framing.frame(xs[0]) + Frames(framing, xs[1..])
  }

  function Bodies<F, T>(framing: Framing<F, T>, xs: seq<F>): (bs: seq<T>)
    ensures |bs| == |xs| && forall i :: 0 <= i < |bs| ==> bs[i] == framing.body(xs[i])
  {
    if xs == [] then [] else [framing.body(xs[0])] + Bodies(framing, xs[1..])
  }

  /** The frame of `x` is accepted wherever it stands, and exactly its bytes are taken. */
  ghost predicate Takes<F, T>(ms: Messages<T>, framing: Framing<F, T>, s: Source, x: F) {
    forall p: nat {:trigger At(s, p, framing.frame(x))} :: At(s, p, framing.frame(x)) ==> ms.at(p) == Accepted(framing.body(x), p + |framing.frame(x)|)
  }

  lemma {:induction false} FramesChain<F, T>(ms: Messages<T>, framing: Framing<F, T>, s: Source, p: nat, xs: seq<F>)
    requires forall i :: 0 <= i < |xs| ==> Takes(ms, framing, s, xs[i])
    requires At(s, p, Frames(framing, xs))
    ensures Chain(ms, p, Bodies(framing, xs), p + |Frames(framing, xs)|)
    decreases |xs|
  {
    if xs != [] {
      AtSplit(s, p, framing.frame(xs[0]), Frames(framing, xs[1..]));
      assert Takes(ms, framing, s, xs[0]);
      FramesChain(ms, framing, s, p + |framing.frame(xs[0])|, xs[1..]);
      assert Bodies(framing, xs)[1..] == Bodies(framing, xs[1..]);
    }
  }

  /** The message at `p` is the frame of `x`. */
  ghost predicate FrameAt<F, T>(ms: Messages<T>, framing: Framing<F, T>, s: Source, p: nat, x: F) {
    && framing.valid(x) && At(s, p, framing.frame(x))
    && ms.at(p) == Accepted(framing.body(x), p + |framing.frame(x)|)
  }

  ghost predicate OnlyFrames<F(!new), T>(ms: Messages<T>, framing: Framing<F, T>, s: Source) {
    forall p: nat :: p <= ms.end && ms.at(p).Accepted? ==> exists x :: FrameAt(ms, framing, s, p, x)
  }

  /** A chain of accepted messages is a chain of frames, one after another. */
  lemma {:induction false} ChainIsFrames<F(!new), T>(
      ms: Messages<T>, framing: Framing<F, T>, s: Source, p: nat, bs: seq<T>, q: nat) returns (xs: seq<F>)
    requires Progress(ms) && OnlyFrames(ms, framing, s) && ms.end == |s.data| && p <= ms.end && Chain(ms, p, bs, q)
    ensures forall i :: 0 <= i < |xs| ==> framing.valid(xs[i])
    ensures At(s, p, Frames(framing, xs)) && bs == Bodies(framing, xs) && q == p + |Frames(framing, xs)|
    decreases |bs|
  {
    xs := [];
    if bs != [] {
      var x :| FrameAt(ms, framing, s, p, x);
      xs := ChainIsFrames(ms, framing, s, ms.at(p).next, bs[1..], q);
      AtSplit(s, p, framing.frame(x), Frames(framing, xs));
      assert ([x] + xs)[1..] == xs && bs == [bs[0]] + bs[1..];
      xs := [x] + xs;
    }
  }

  /** Frames are taken one by one, in order, and the run goes on right after them. */
  lemma RunThroughFrames<F, T>(ms: Messages<T>, framing: Framing<F, T>, s: Source, p: nat, xs: seq<F>, writes: nat)
    requires Progress(ms) && p <= ms.end && At(s, p, Frames(framing, xs))
    requires forall i :: 0 <= i < |xs| ==> Takes(ms, framing, s, xs[i])
    requires |All(ms.manners.acks, Bodies(framing, xs))| <= writes
    ensures var bs, q := Bodies(framing, xs), p + |Frames(framing, xs)|;
      && q <= ms.end
      && RunFrom(ms, p, writes) == After(ms.manners, bs, RunFrom(ms, q, writes - |All(ms.manners.acks, bs)|))
  {
    FramesChain(ms, framing, s, p, xs);
    RunThroughChain(ms, p, Bodies(framing, xs), p + |Frames(framing, xs)|, writes);
  }

  /** Whatever a run delivers came out of consecutive frames from its start on, in their order. */
  lemma RunIsFrames<F(!new), T>(ms: Messages<T>, framing: Framing<F, T>, s: Source, p: nat, writes: nat)
      returns (xs: seq<F>)
    requires Progress(ms) && OnlyFrames(ms, framing, s) && ms.end == |s.data| && p <= ms.end
    ensures forall i :: 0 <= i < |xs| ==> framing.valid(xs[i])
    ensures At(s, p, Frames(framing, xs))
    ensures RunFrom(ms, p, writes).bodies == Bodies(framing, xs)
  {
    var q := RunIsChain(ms, p, writes);
    xs := ChainIsFrames(ms, framing, s, p, RunFrom(ms, p, writes).bodies, q);
  }

  /** A run goes through consecutive frames and stops at the first message that it cannot take and answer. */
  lemma RunStopsAtFrames<F(!new), T>(ms: Messages<T>, framing: Framing<F, T>, s: Source, p: nat, writes: nat) returns (xs: seq<F>)
    requires Progress(ms) && OnlyFrames(ms, framing, s) && ms.end == |s.data| && p <= ms.end
    ensures forall i :: 0 <= i < |xs| ==> framing.valid(xs[i])
    ensures At(s, p, Frames(framing, xs))
    ensures StopsAt(ms, p, writes, Bodies(framing, xs), p + |Frames(framing, xs)|, RunFrom(ms, p, writes))
  {
    var done, q := RunStops(ms, p, writes);
    xs := ChainIsFrames(ms, framing, s, p, done, q);
  }

  /** The frames of `xs` stand one after another from `p` on and have these bodies; what follows them is `stop`. */
  ghost predicate Through<F, T>(ms: Messages<T>, framing: Framing<F, T>, s: Source, p: nat, xs: seq<F>, bodies: seq<T>, stop: Message<T>) {
    && (forall i :: 0 <= i < |xs| ==> framing.valid(xs[i]))
    && At(s, p, Frames(framing, xs)) && bodies == Bodies(framing, xs)
    && stop == ms.at(p + |Frames(framing, xs)|)
  }

  lemma RunThrough<F(!new), T>(ms: Messages<T>, framing: Framing<F, T>, s: Source, p: nat, writes: nat)
      returns (xs: seq<F>, bodies: seq<T>, q: nat, stop: Message<T>)
    requires Progress(ms) && OnlyFrames(ms, framing, s) && ms.end == |s.data| && p <= ms.end
    ensures Through(ms, framing, s, p, xs, bodies, stop)
    ensures StopsAt(ms, p, writes, bodies, q, RunFrom(ms, p, writes)) && stop == ms.at(q)
  {
    xs := RunStopsAtFrames(ms, framing, s, p, writes);
    bodies, q := Bodies(framing, xs), p + |Frames(framing, xs)|;
    stop := ms.at(q);
  }

  /** A stream of nothing but frames delivers all of them, with all their answers, in order. */
  lemma WholeStream<F, T>(ms: Messages<T>, framing: Framing<F, T>, s: Source, xs: seq<F>, writes: nat, e: Error)
    requires Progress(ms) && ms.end == |s.data| && s.data == Frames(framing, xs)
    requires forall i :: 0 <= i < |xs| ==> Takes(ms, framing, s, xs[i])
    requires |All(ms.manners.acks, Bodies(framing, xs))| <= writes
    requires ms.at(|s.data|) == Rejected(e, [])
    ensures var bs := Bodies(framing, xs);
      RunFrom(ms, 0, writes) == Run(bs, All(ms.manners.acks, bs), All(ms.manners.replies, bs), e)
  {
    assert At(s, 0, Frames(framing, xs));
    RunThroughFrames(ms, framing, s, 0, xs, writes);
    AfterLast(ms.manners, Bodies(framing, xs), e);
  }
}
