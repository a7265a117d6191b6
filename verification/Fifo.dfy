/** The specification of a queue: a bounded FIFO that refuses when it is full, with its history. */
module Fifo {

  datatype Fifo<T> = Fifo(room: nat, items: seq<T>, offered: seq<T>, pushed: seq<T>, refused: seq<T>, popped: seq<T>)

  function Empty<T>(room: nat): Fifo<T> {
    Fifo(room, [], [], [], [], [])
  }

  predicate HasRoom<T>(q: Fifo<T>) {
    |q.items| < q.room
  }

  function Push<T>(q: Fifo<T>, x: T): Fifo<T> {
    if HasRoom(q) then q.(items := q.items + [x], offered := q.offered + [x], pushed := q.pushed + [x])
    else q.(offered := q.offered + [x], refused := q.refused + [x])
  }

  function Pop<T>(q: Fifo<T>): Fifo<T> {
    if q.items == [] then q else q.(items := q.items[1..], popped := q.popped + [q.items[0]])
  }

  /** `all` is `a` and `b` merged, each in its own order. */
  ghost predicate Interleaves<T>(all: seq<T>, a: seq<T>, b: seq<T>) {
    if all == [] then a == [] && b == []
    else
      var n := |all| - 1;
      || (a != [] && a[|a| - 1] == all[n] && Interleaves(all[..n], a[..|a| - 1], b))
      || (b != [] && b[|b| - 1] == all[n] && Interleaves(all[..n], a, b[..|b| - 1]))
  }

  /** Nothing is lost, duplicated or reordered: what came out and what is inside are what went in, and
      what was offered either went in or was refused, in the order it was offered. Nothing is refused before
      the queue has been filled. */
  ghost predicate Conserves<T>(q: Fifo<T>) {
    && q.popped + q.items == q.pushed
    && |q.items| <= q.room
    && Interleaves(q.offered, q.pushed, q.refused)
    && (q.refused != [] ==> |q.pushed| >= q.room)
  }

  lemma {:induction false} InterleavesCounts<T>(all: seq<T>, a: seq<T>, b: seq<T>)
    requires Interleaves(all, a, b)
    ensures |all| == |a| + |b|
    ensures multiset(all) == multiset(a) + multiset(b)
    ensures b == [] ==> all == a
  {
    if all != [] {
      var n := |all| - 1;
      assert all == all[..n] + [all[n]];
      if a != [] && a[|a| - 1] == all[n] && Interleaves(all[..n], a[..|a| - 1], b) {
        assert a == a[..|a| - 1] + [all[n]];
        InterleavesCounts(all[..n], a[..|a| - 1], b);
      } else {
        assert b == b[..|b| - 1] + [all[n]];
        InterleavesCounts(all[..n], a, b[..|b| - 1]);
      }
    }
  }

  lemma PushConserves<T>(q: Fifo<T>, x: T)
    requires Conserves(q)
    ensures Conserves(Push(q, x))
  {
    assert (q.offered + [x])[..|q.offered|] == q.offered;
    if HasRoom(q) {
      assert q.popped + (q.items + [x]) == q.pushed + [x];
      assert (q.pushed + [x])[..|q.pushed|] == q.pushed;
    } else {
      assert (q.refused + [x])[..|q.refused|] == q.refused;
    }
  }

  lemma PopConserves<T>(q: Fifo<T>)
    requires Conserves(q)
    ensures Conserves(Pop(q))
  {
    if q.items != [] {
      assert q.items == [q.items[0]] + q.items[1..];
      assert q.popped + [q.items[0]] + q.items[1..] == q.popped + q.items;
    }
  }
}
