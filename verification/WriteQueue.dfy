/**
  The per-connection write queue: whole messages go in, bytes go out as fast as the socket
  takes them.
*/
module WriteQueue {
  import opened CStrings

  type Bytes = seq<bv8>

  datatype Pending = Pending(buf: Bytes, written: nat)

  /** What one lws_write reports: an error, or how much was taken and whether the library is now
      holding back a partial write. */
  datatype Outcome = Error | Accepted(count: nat, partial: bool)

  function Concat(ms: seq<Bytes>): Bytes {
    if ms == [] then [] else Concat(ms[..|ms| - 1]) + ms[|ms| - 1]
  }

  /** The bytes still to go, in order. */
  function Rest(q: seq<Pending>): Bytes
    requires Fits(q)
  {
    if q == [] then [] else q[0].buf[q[0].written..] + Rest(q[1..])
  }

  predicate Fits(q: seq<Pending>) {
    forall i :: 0 <= i < |q| ==> q[i].written <= |q[i].buf|
  }

  /** Only the head may be partly written, and an entry that is complete has left. */
  predicate Orderly(q: seq<Pending>) {
    && Fits(q)
    && (forall i :: 0 < i < |q| ==> q[i].written == 0)
    && (q != [] && q[0].written > 0 ==> q[0].written < |q[0].buf|)
  }

  lemma {:induction false} RestAppend(q: seq<Pending>, p: Pending)
    requires Fits(q) && p.written <= |p.buf|
    ensures Fits(q + [p]) && Rest(q + [p]) == Rest(q) + p.buf[p.written..]
  {
    if q == [] {
      assert q + [p] == [p] && [p][1..] == [];
    } else {
      RestAppend(q[1..], p);
      assert (q + [p])[1..] == q[1..] + [p];
    }
  }

  lemma ConcatAppend(ms: seq<Bytes>, m: Bytes)
    ensures Concat(ms + [m]) == Concat(ms) + m
  {
    assert (ms + [m])[..|ms|] == ms;
  }

  /** A socket that takes nothing reports a partial write; otherwise the loop would not end. */
  ghost predicate Progresses(lws: nat -> Outcome) {
    forall k :: lws(k).Accepted? && !lws(k).partial ==> lws(k).count > 0
  }

  class Queue {
    var q: seq<Pending>
    ghost var messages: seq<Bytes>
    ghost var accepted: Bytes

    /** Nothing is lost, repeated or reordered. */
    ghost predicate Valid()
      reads this
    {
      Orderly(q) && accepted + Rest(q) == Concat(messages)
    }

    constructor ()
      ensures Valid() && messages == [] && accepted == []
    {
      q, messages, accepted := [], [], [];
    }

    /** wsu_queue_write_str. */
    method Write(msg: Option<Bytes>) returns (ok: bool)
      requires Valid()
      modifies this
      ensures Valid() && ok == msg.Some? && accepted == old(accepted)
      ensures messages == if ok then old(messages) + [msg.value] else old(messages)
    {
      ok := msg.Some?;
      if ok {
        var p := Pending(msg.value, 0);
        RestAppend(q, p);
        ConcatAppend(messages, msg.value);
        assert p.buf[p.written..] == msg.value;
        assert accepted + (Rest(q) + msg.value) == (accepted + Rest(q)) + msg.value;
        q := q + [p];
        messages := messages + [msg.value];
      }
    }

    /** One lws_write that takes n bytes of the head. */
    method TakeFromHead(n: nat)
      requires Fits(q) && q != [] && q[0].written + n <= |q[0].buf|
      modifies this`q, this`accepted
      ensures |q| == |old(q)| && q[1..] == old(q)[1..]
      ensures q[0] == Pending(old(q)[0].buf, old(q)[0].written + n)
      ensures Fits(q) && accepted + Rest(q) == old(accepted + Rest(q)) && old(accepted) <= accepted
    {
      Accept(q, n);
      accepted := accepted + q[0].buf[q[0].written..q[0].written + n];
      q := [Pending(q[0].buf, q[0].written + n)] + q[1..];
    }

    /** The inner loop: write the head until it is done, held back or failed. */
    method WriteHead(lws: nat -> Outcome, from: nat) returns (k: nat, failed: bool, partial: bool)
      requires Fits(q) && q != [] && Progresses(lws)
      modifies this`q, this`accepted
      ensures Fits(q) && accepted + Rest(q) == old(accepted + Rest(q)) && old(accepted) <= accepted
      ensures |q| == |old(q)| && q[1..] == old(q)[1..] && q[0].buf == old(q)[0].buf
      ensures !failed && !partial ==> q[0].written == |q[0].buf|
      ensures failed ==> q[0].written == old(q)[0].written || q[0].written < |q[0].buf|
      ensures k > from && (failed <==> lws(k - 1).Error?) && (!failed ==> partial == lws(k - 1).partial)
      ensures forall i :: from <= i < k - 1 ==> lws(i).Accepted? && !lws(i).partial
    {
      k := from;
      ghost var total := accepted + Rest(q);
      while true
        invariant Fits(q) && q != [] && accepted + Rest(q) == total && old(accepted) <= accepted
        invariant |q| == |old(q)| && q[1..] == old(q)[1..] && q[0].buf == old(q)[0].buf
        invariant forall i :: from <= i < k ==> lws(i).Accepted? && !lws(i).partial
        invariant k >= from && (q[0].written == old(q)[0].written || q[0].written < |q[0].buf|)
        decreases |q[0].buf| - q[0].written, k == from
      {
        var r := lws(k);
        k := k + 1;
        if r.Error? {
          return k, true, false;
        }
        var left := |q[0].buf| - q[0].written;
        TakeFromHead(if r.count < left then r.count else left);
        if q[0].written == |q[0].buf| || r.partial {
          return k, false, r.partial;
        }
      }
    }

    /** wsubus_tx_text. It fails exactly when a write does, and then that was the last; otherwise it
        goes on until the queue is empty or the library holds data back. */
    method Drain(lws: nat -> Outcome) returns (ok: bool, ghost writes: nat)
      requires Valid() && Progresses(lws)
      modifies this
      ensures Valid() && messages == old(messages) && old(accepted) <= accepted
      ensures forall k :: 0 <= k < writes - 1 ==> lws(k).Accepted? && !lws(k).partial
      ensures !ok <==> writes > 0 && lws(writes - 1).Error?
      ensures ok ==> q == [] || (writes > 0 && lws(writes - 1).Accepted? && lws(writes - 1).partial)
      ensures q == [] ==> accepted == Concat(messages)
      ensures ok && (forall k :: lws(k).Accepted? && !lws(k).partial) ==> q == [] && accepted == Concat(messages)
    {
      var k := 0;
      ok, writes := true, 0;
      while q != []
        invariant Valid() && messages == old(messages) && old(accepted) <= accepted
        invariant ok && writes == k && forall i :: 0 <= i < k ==> lws(i).Accepted? && !lws(i).partial
        decreases |q|
      {
        var failed, partial;
        k, failed, partial := WriteHead(lws, k);
        writes := k;
        if failed {
          ok := false;
          return;
        }
        if q[0].written == |q[0].buf| {
          q := q[1..];
        }
        if partial {
          return;
        }
      }
    }
  }

  lemma Accept(q: seq<Pending>, n: nat)
    requires Fits(q) && q != [] && q[0].written + n <= |q[0].buf|
    ensures var after := [Pending(q[0].buf, q[0].written + n)] + q[1..];
            Fits(after) && Rest(q) == q[0].buf[q[0].written..q[0].written + n] + Rest(after)
  {
    var h, after := q[0], [Pending(q[0].buf, q[0].written + n)] + q[1..];
    assert after[1..] == q[1..];
    assert Fits(after) by {
      forall i | 0 < i < |after| ensures after[i] == q[i] {}
    }
    Halves(h.buf, h.written, h.written + n);
    assert Rest(q) == h.buf[h.written..] + Rest(q[1..]);
    assert Rest(after) == h.buf[h.written + n..] + Rest(q[1..]);
  }

  lemma Halves(b: seq<bv8>, i: nat, j: nat)
    requires i <= j <= |b|
    ensures b[i..] == b[i..j] + b[j..]
  {
  }
}
