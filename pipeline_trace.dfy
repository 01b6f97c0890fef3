// The observable behaviour of a pipeline schedule on one stage: the batched
// communication calls it issues, the forward and backward chunks it runs,
// and what it extracts from such a trace.

module PipelineTrace {
  import opened Wrappers

  /** The loss computed for one microbatch on the last stage (its value is
      opaque; it is identified by its microbatch). */
  datatype Loss = Loss(mb: nat)

  /** What `_maybe_get_loss` hands to the backward of microbatch `j` once
      the forwards up to `j` are done: the stored loss on the last stage,
      nothing elsewhere. */
  function StoredLoss(isLast: bool, j: nat): Option<Loss>
  {
    if isLast then Some(Loss(j)) else None
  }

  /** The point-to-point operations a stage asks for, by kind. */
  datatype OpKind = FwdRecv | FwdSend | BwdRecv | BwdSend

  datatype Event =
    | Comm(kinds: seq<OpKind>)            // one `_sorted_batch_p2p` call over these op lists
    | Forward(mb: nat)                    // `forward_one_chunk` on microbatch mb
    | Backward(mb: nat, last: bool, loss: Option<Loss>)
                                          // `backward_one_chunk`, with the data-parallel
                                          // "last backward" flag and the loss handed in

  /** `0, 1, .., n-1`. */
  function Range(n: nat): (r: seq<nat>)
    ensures |r| == n && forall i :: 0 <= i < n ==> r[i] == i
  {
    seq(n, i requires 0 <= i => i)
  }

  lemma RangeSnoc(n: nat)
    ensures Range(n + 1) == Range(n) + [n]
  {
  }

  /** The microbatches forwarded, in order. */
  function Forwards(t: seq<Event>): seq<nat>
  {
    if t == [] then []
    else Forwards(t[..|t| - 1]) + (if t[|t| - 1].Forward? then [t[|t| - 1].mb] else [])
  }

  /** The microbatches backwarded, in order. */
  function Backwards(t: seq<Event>): seq<nat>
  {
    if t == [] then []
    else Backwards(t[..|t| - 1]) + (if t[|t| - 1].Backward? then [t[|t| - 1].mb] else [])
  }

  function KindCount(kinds: seq<OpKind>, k: OpKind): nat
  {
    multiset(kinds)[k]
  }

  /** How many communication calls carried the op list of kind `k`. */
  function Occurrences(t: seq<Event>, k: OpKind): nat
  {
    if t == [] then 0
    else Occurrences(t[..|t| - 1], k) + (if t[|t| - 1].Comm? then KindCount(t[|t| - 1].kinds, k) else 0)
  }

  lemma {:induction false} ForwardsAppend(a: seq<Event>, b: seq<Event>)
    ensures Forwards(a + b) == Forwards(a) + Forwards(b)
    decreases |b|
  {
    if b == [] {
      assert a + b == a;
    } else {
      var b' := b[..|b| - 1];
      assert (a + b)[..|a + b| - 1] == a + b';
      ForwardsAppend(a, b');
    }
  }

  lemma {:induction false} BackwardsAppend(a: seq<Event>, b: seq<Event>)
    ensures Backwards(a + b) == Backwards(a) + Backwards(b)
    decreases |b|
  {
    if b == [] {
      assert a + b == a;
    } else {
      var b' := b[..|b| - 1];
      assert (a + b)[..|a + b| - 1] == a + b';
      BackwardsAppend(a, b');
    }
  }

  lemma {:induction false} OccurrencesAppend(a: seq<Event>, b: seq<Event>, k: OpKind)
    ensures Occurrences(a + b, k) == Occurrences(a, k) + Occurrences(b, k)
    decreases |b|
  {
    if b == [] {
      assert a + b == a;
    } else {
      var b' := b[..|b| - 1];
      assert (a + b)[..|a + b| - 1] == a + b';
      OccurrencesAppend(a, b', k);
    }
  }

  /** Extraction from a sequence of one event. */
  lemma OneKind(x: OpKind, k: OpKind)
    ensures KindCount([x], k) == if x == k then 1 else 0
  {
    assert multiset([x]) == multiset{x};
  }

  lemma Single(e: Event, k: OpKind)
    ensures Forwards([e]) == if e.Forward? then [e.mb] else []
    ensures Backwards([e]) == if e.Backward? then [e.mb] else []
    ensures Occurrences([e], k) == if e.Comm? then KindCount(e.kinds, k) else 0
  {
    assert [e][..0] == [];
  }
}
