/** The publish loop of sources/wolk_connector.c over the in-memory store: nothing is lost, doubled or reordered. */
module Publish {
  import opened CircularBuffer
  import opened Prelude

  const PUBLISH_BATCH_SIZE := 50

  /** A message given to the network, and whether the network took it. */
  datatype Attempt<M> = Attempt(m: M, taken: bool)

  function AllTaken<M>(ms: seq<M>): (r: seq<Attempt<M>>)
    ensures |r| == |ms|
  {
    seq(|ms|, i requires 0 <= i < |ms| => Attempt(ms[i], true))
  }

  // --- one call --------------------------------------------------------------------------------------------

  class Connector<M> {
    const store: Ring<M>

    /** The messages that were sent with success, in order. */
    ghost var sent: seq<M>

    /** All attempts to send, in order. */
    ghost var log: seq<Attempt<M>>

    ghost predicate Valid()
      reads this, store
    {
      store.Valid()
    }

    constructor (store: Ring<M>)
      requires store.Valid()
      ensures Valid() && this.store == store && sent == [] && log == []
    {
      this.store := store;
      sent, log := [], [];
    }

    /** The network: a send succeeds or fails as it pleases. */
    method Send(m: M) returns (ok: bool)
      modifies this`sent, this`log
      ensures sent == if ok then old(sent) + [m] else old(sent)
      ensures log == old(log) + [Attempt(m, ok)]
    {
      ok := *;
      log := log + [Attempt(m, ok)];
      if ok {
        sent := sent + [m];
      }
    }

    /** persistence_push */
    method Push(m: M) returns (ok: bool)
      requires Valid()
      modifies store, store.storage
      ensures Valid() && sent == old(sent) && log == old(log)
      ensures PushStep(store.storage.Length, store.wrap, old(store.Contents()), store.Contents(), m, ok)
    {
      ok := store.Add(m);
    }

    /** wolk_publish; `n` is the number of messages it removed. */
    method Publish() returns (ok: bool, ghost n: nat)
      requires Valid()
      modifies this`sent, this`log, store
      ensures Valid()
      ensures PublishStep(old(sent), old(store.Contents()), sent, store.Contents(), ok, n)
      ensures Attempts(old(log), old(store.Contents()), log, ok, n)
    {
      ghost var queue := store.Contents();
      ghost var gone, left := [], queue;
      n := 0;
      var i := 0;
      while i < PUBLISH_BATCH_SIZE
        invariant Valid() && 0 <= i <= PUBLISH_BATCH_SIZE
        invariant n == i == |gone| && gone + left == queue
        invariant store.Contents() == left && sent == old(sent) + gone && log == old(log) + AllTaken(gone)
      {
        if store.empty {
          Parted(queue, gone, left);
          return true, n;
        }
        ok := PublishHead();
        if !ok {
          Parted(queue, gone, left);
          return;
        }
        OneGone(old(sent), gone, left);
        OneTaken(old(log), gone, left[0]);
        gone, left, n := gone + [left[0]], left[1..], n + 1;
        i := i + 1;
      }
      Parted(queue, gone, left);
      ok := true;
    }

    /** One turn of its loop: the message at the head is sent, and removed if that succeeds. */
    method PublishHead() returns (ok: bool)
      requires Valid() && !store.empty
      modifies this`sent, this`log, store
      ensures Valid() && old(store.Contents()) != []
      ensures var queue := old(store.Contents());
        && log == old(log) + [Attempt(queue[0], ok)]
        && sent == (if ok then old(sent) + [queue[0]] else old(sent))
        && store.Contents() == if ok then queue[1..] else queue
    {
      ok := true;
      var m := store.Peek(0);
      if m.Some? {
        ok := Send(m.value);
        if ok {
          var popped := store.Pop();
        }
      }
    }
  }

  lemma Parted<M>(queue: seq<M>, gone: seq<M>, left: seq<M>)
    requires gone + left == queue
    ensures queue[..|gone|] == gone && queue[|gone|..] == left
  {
  }

  lemma OneGone<M>(before: seq<M>, gone: seq<M>, left: seq<M>)
    requires left != []
    ensures gone + [left[0]] + left[1..] == gone + left
    ensures before + gone + [left[0]] == before + (gone + [left[0]])
  {
  }

  lemma OneTaken<M>(log: seq<Attempt<M>>, gone: seq<M>, m: M)
    ensures log + AllTaken(gone) + [Attempt(m, true)] == log + AllTaken(gone + [m])
  {
    assert AllTaken(gone) + [Attempt(m, true)] == AllTaken(gone + [m]);
  }

  // --- every run -------------------------------------------------------------------------------------------

  ghost predicate PushStep<M>(cap: nat, wrap: bool, queue: seq<M>, queue': seq<M>, m: M, ok: bool) {
    (ok <==> wrap || |queue| < cap) && queue' == Pushed(cap, wrap, queue, m)
  }

  /** At most a batch leaves the head of the queue; success means that the queue is empty or the batch is full,
      failure that the message that could not be sent is still at the head. */
  ghost predicate PublishStep<M>(sent: seq<M>, queue: seq<M>, sent': seq<M>, queue': seq<M>, ok: bool, n: nat) {
    && n <= PUBLISH_BATCH_SIZE && n <= |queue|
    && sent' == sent + queue[..n] && queue' == queue[n..]
    && (ok ==> queue' == [] || n == PUBLISH_BATCH_SIZE)
    && (!ok ==> queue' != [] && n < PUBLISH_BATCH_SIZE)
  }

  /** What the network gets: the messages that leave, which it takes, and on failure the head, which it refuses. */
  ghost predicate Attempts<M>(log: seq<Attempt<M>>, queue: seq<M>, log': seq<Attempt<M>>, ok: bool, n: nat) {
    n <= |queue| && (!ok ==> n < |queue|)
    && log' == log + AllTaken(queue[..n]) + if ok then [] else [Attempt(queue[n], false)]
  }

  /** `accepted` are the messages whose push was confirmed. */
  datatype Conn<M> = Conn(sent: seq<M>, queue: seq<M>, accepted: seq<M>, log: seq<Attempt<M>>)

  datatype Event<M> = PushEvent(m: M, pushed: bool) | PublishEvent(ok: bool, n: nat)

  ghost predicate Steps<M>(cap: nat, wrap: bool, s: Conn<M>, e: Event<M>, s': Conn<M>) {
    match e
    case PushEvent(m, ok) =>
      && PushStep(cap, wrap, s.queue, s'.queue, m, ok) && s'.sent == s.sent && s'.log == s.log
      && s'.accepted == (if ok then s.accepted + [m] else s.accepted)
    case PublishEvent(ok, n) =>
      PublishStep(s.sent, s.queue, s'.sent, s'.queue, ok, n) && s'.accepted == s.accepted
      && Attempts(s.log, s.queue, s'.log, ok, n)
  }

  /** A run from a fresh connector: `states` has one more element than `events`. */
  ghost predicate IsRun<M>(cap: nat, wrap: bool, states: seq<Conn<M>>, events: seq<Event<M>>) {
    && |states| == |events| + 1
    && states[0] == Conn([], [], [], [])
    && forall i :: 0 <= i < |events| ==> Steps(cap, wrap, states[i], events[i], states[i + 1])
  }

  /** `a` is what is left of `b` when some elements are taken out. */
  ghost predicate Subsequence<M>(a: seq<M>, b: seq<M>)
    decreases |b|
  {
    a == []
    || (b != [] && Subsequence(a, b[..|b| - 1]))
    || (b != [] && a[|a| - 1] == b[|b| - 1] && Subsequence(a[..|a| - 1], b[..|b| - 1]))
  }

  lemma SubsequenceSkips<M>(a: seq<M>, b: seq<M>, x: M)
    requires Subsequence(a, b)
    ensures Subsequence(a, b + [x])
  {
    assert (b + [x])[..|b|] == b;
  }

  lemma SubsequenceTakes<M>(a: seq<M>, b: seq<M>, x: M)
    requires Subsequence(a, b)
    ensures Subsequence(a + [x], b + [x])
  {
    assert (a + [x])[..|a|] == a && (b + [x])[..|b|] == b;
  }

  lemma {:induction false} SubsequenceTakesAll<M>(a: seq<M>, b: seq<M>, s: seq<M>)
    requires Subsequence(a, b)
    ensures Subsequence(a + s, b + s)
    decreases |s|
  {
    if s == [] {
      assert a + s == a && b + s == b;
    } else {
      SubsequenceTakes(a, b, s[0]);
      SubsequenceTakesAll(a + [s[0]], b + [s[0]], s[1..]);
      assert a + [s[0]] + s[1..] == a + s && b + [s[0]] + s[1..] == b + s;
    }
  }

  /** The queue is the newest part of what was accepted; what was sent comes, in order, from the `older` part,
      and is all of it unless the ring may drop its oldest element. */
  ghost predicate InOrder<M>(cap: nat, wrap: bool, s: Conn<M>, older: seq<M>) {
    && |s.queue| <= cap
    && s.accepted == older + s.queue
    && Subsequence(s.sent, older)
    && (!wrap ==> s.sent == older)
  }

  lemma PushKeepsOrder<M>(cap: nat, wrap: bool, s: Conn<M>, older: seq<M>, m: M, ok: bool, s': Conn<M>)
    returns (older': seq<M>)
    requires cap > 0 && InOrder(cap, wrap, s, older) && Steps(cap, wrap, s, PushEvent(m, ok), s')
    ensures InOrder(cap, wrap, s', older')
  {
    older' := older;
    if ok && |s.queue| == cap {
      older' := older + [s.queue[0]];
      SubsequenceSkips(s.sent, older, s.queue[0]);
      assert older + s.queue + [m] == older' + (s.queue[1..] + [m]);
    } else if ok {
      assert older + s.queue + [m] == older + (s.queue + [m]);
    }
  }

  lemma PublishKeepsOrder<M>(cap: nat, wrap: bool, s: Conn<M>, older: seq<M>, ok: bool, n: nat, s': Conn<M>)
    returns (older': seq<M>)
    requires InOrder(cap, wrap, s, older) && Steps(cap, wrap, s, PublishEvent(ok, n), s')
    ensures InOrder(cap, wrap, s', older')
  {
    older' := older + s.queue[..n];
    SubsequenceTakesAll(s.sent, older, s.queue[..n]);
    assert older + s.queue == older' + s.queue[n..];
  }

  lemma {:induction false} RunKeepsOrder<M>(cap: nat, wrap: bool, states: seq<Conn<M>>, events: seq<Event<M>>, i: nat)
    returns (older: seq<M>)
    requires cap > 0 && IsRun(cap, wrap, states, events) && i <= |events|
    ensures InOrder(cap, wrap, states[i], older)
    decreases i
  {
    older := [];
    if i > 0 {
      older := RunKeepsOrder(cap, wrap, states, events, i - 1);
      assert Steps(cap, wrap, states[i - 1], events[i - 1], states[i - 1 + 1]);
      match events[i - 1]
      case PushEvent(m, ok) => older := PushKeepsOrder(cap, wrap, states[i - 1], older, m, ok, states[i]);
      case PublishEvent(ok, n) => older := PublishKeepsOrder(cap, wrap, states[i - 1], older, ok, n, states[i]);
    }
  }

  /** In every run on the store that does not wrap, at every moment: sent messages and queued messages together
      are the accepted messages, in order. */
  lemma NothingLost<M>(cap: nat, states: seq<Conn<M>>, events: seq<Event<M>>, i: nat)
    requires cap > 0 && IsRun(cap, false, states, events) && i <= |events|
    ensures states[i].sent + states[i].queue == states[i].accepted
  {
    var older := RunKeepsOrder(cap, false, states, events, i);
  }

  /** In every run on a store that may wrap: nothing is sent twice or out of order, and what is queued are the
      newest accepted messages. */
  lemma NothingReordered<M>(cap: nat, wrap: bool, states: seq<Conn<M>>, events: seq<Event<M>>, i: nat)
    requires cap > 0 && IsRun(cap, wrap, states, events) && i <= |events|
    ensures Subsequence(states[i].sent + states[i].queue, states[i].accepted)
    ensures |states[i].queue| <= |states[i].accepted|
    ensures states[i].queue == states[i].accepted[|states[i].accepted| - |states[i].queue|..]
  {
    var older := RunKeepsOrder(cap, wrap, states, events, i);
    SubsequenceTakesAll(states[i].sent, older, states[i].queue);
  }

  // --- a network that takes everything ------------------------------------------------------------------------

  /** No attempt behind the first `k` is refused. */
  predicate NothingRefused<M>(log: seq<Attempt<M>>, k: nat) { forall i :: k <= i < |log| ==> log[i].taken }

  /** A call that fails has seen a refusal. */
  lemma FailureIsRefused<M>(cap: nat, wrap: bool, s: Conn<M>, ok: bool, n: nat, s': Conn<M>)
    requires Steps(cap, wrap, s, PublishEvent(ok, n), s')
    ensures !ok <==> !NothingRefused(s'.log, |s.log|)
  {
    if !ok {
      assert s'.log[|s.log| + n] == Attempt(s.queue[n], false);
    }
  }

  /** Then one call succeeds and removes a batch of 50, or all there is. */
  lemma OneCallSendsABatch<M>(cap: nat, wrap: bool, s: Conn<M>, ok: bool, n: nat, s': Conn<M>)
    requires Steps(cap, wrap, s, PublishEvent(ok, n), s') && NothingRefused(s'.log, |s.log|)
    ensures ok && s'.queue == s.queue[Min(50, |s.queue|)..]
    ensures s'.sent == s.sent + s.queue[..Min(50, |s.queue|)]
  {
    FailureIsRefused(cap, wrap, s, ok, n, s');
  }

  /** A run of calls alone, from any state. */
  ghost predicate AreCalls<M>(cap: nat, wrap: bool, states: seq<Conn<M>>, events: seq<Event<M>>) {
    && |states| == |events| + 1
    && forall i :: 0 <= i < |events| ==>
         events[i].PublishEvent? && Steps(cap, wrap, states[i], events[i], states[i + 1])
  }

  lemma LogGrows<M>(cap: nat, wrap: bool, s: Conn<M>, e: Event<M>, s': Conn<M>)
    requires Steps(cap, wrap, s, e, s')
    ensures |s.log| <= |s'.log| && s'.log[..|s.log|] == s.log
  {
  }

  lemma {:induction false} LogGrowsOn<M>(cap: nat, wrap: bool, states: seq<Conn<M>>, events: seq<Event<M>>, i: nat,
                                         j: nat)
    requires AreCalls(cap, wrap, states, events) && i <= j <= |events|
    ensures |states[i].log| <= |states[j].log| && states[j].log[..|states[i].log|] == states[i].log
    decreases j
  {
    if i < j {
      LogGrowsOn(cap, wrap, states, events, i, j - 1);
      LogGrows(cap, wrap, states[j - 1], events[j - 1], states[j - 1 + 1]);
    }
  }

  lemma NothingRefusedBefore<M>(cap: nat, wrap: bool, states: seq<Conn<M>>, events: seq<Event<M>>, i: nat, j: nat)
    requires AreCalls(cap, wrap, states, events) && i <= j <= |events|
    requires NothingRefused(states[|events|].log, |states[0].log|)
    ensures NothingRefused(states[j].log, |states[i].log|)
  {
    LogGrowsOn(cap, wrap, states, events, 0, i);
    LogGrowsOn(cap, wrap, states, events, j, |events|);
    forall k | |states[i].log| <= k < |states[j].log| ensures states[j].log[k].taken {
      assert states[j].log[k] == states[|events|].log[..|states[j].log|][k];
    }
  }

  /** After `k` calls 50 * k messages of the queue are sent, or all; so enough calls empty any queue. */
  lemma {:induction false} CallsDrain<M>(cap: nat, wrap: bool, states: seq<Conn<M>>, events: seq<Event<M>>, k: nat)
    requires AreCalls(cap, wrap, states, events) && k <= |events|
    requires NothingRefused(states[|events|].log, |states[0].log|)
    ensures var gone := Min(50 * k, |states[0].queue|);
            states[k].queue == states[0].queue[gone..] && states[k].sent == states[0].sent + states[0].queue[..gone]
    ensures 50 * k >= |states[0].queue| ==> states[k].queue == []
  {
    if k > 0 {
      CallsDrain(cap, wrap, states, events, k - 1);
      var s, e, s' := states[k - 1], events[k - 1], states[k - 1 + 1];
      assert events[k - 1].PublishEvent? && Steps(cap, wrap, s, e, s');
      NothingRefusedBefore(cap, wrap, states, events, k - 1, k);
      OneCallSendsABatch(cap, wrap, s, e.ok, e.n, s');
      OneBatchMore(states[0], s, s', k);
    }
  }

  lemma OneBatchMore<M>(s0: Conn<M>, s: Conn<M>, s': Conn<M>, k: nat)
    requires k > 0
    requires var gone := Min(50 * (k - 1), |s0.queue|);
             s.queue == s0.queue[gone..] && s.sent == s0.sent + s0.queue[..gone]
    requires var n := Min(50, |s.queue|);
             s'.queue == s.queue[n..] && s'.sent == s.sent + s.queue[..n]
    ensures var gone := Min(50 * k, |s0.queue|);
            s'.queue == s0.queue[gone..] && s'.sent == s0.sent + s0.queue[..gone]
  {
    BatchesJoin(s0.sent, s0.queue, Min(50 * (k - 1), |s0.queue|), Min(50, |s.queue|));
  }

  lemma BatchesJoin<M>(sent: seq<M>, queue: seq<M>, a: nat, b: nat)
    requires a + b <= |queue|
    ensures queue[a..][b..] == queue[a + b..]
    ensures sent + queue[..a] + queue[a..][..b] == sent + queue[..a + b]
  {
  }
}
