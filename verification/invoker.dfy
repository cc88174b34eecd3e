/**
  The director's FrameInvoker: a list of (progress key, action) pairs kept in
  key order by an insertion that places a new entry after every entry whose key
  is not greater, and a flush that performs the actions in list order and
  empties the list.
*/
module Invoker {

  /**
    A deferred action: an InvokerClip's callback, or a ValueClip's setter called
    with the value computed when the entry was queued.  Callbacks and setters
    are identified by number; what they do is outside the model.
  */
  datatype Action = Call(callback: nat) | SetValue(setter: nat, value: real)

  datatype Entry = Entry(key: real, action: Action)

  predicate Sorted(q: seq<Entry>) {
    forall i, j :: 0 <= i < j < |q| ==> q[i].key <= q[j].key
  }

  /**
    FrameInvoker.Invoke's scan: the first index whose key is strictly greater
    than `key`, or the length of the list when there is none.
  */
  function InsertPos(q: seq<Entry>, key: real): (pos: nat)
    ensures pos <= |q|
    ensures forall i :: 0 <= i < pos ==> q[i].key <= key
    ensures pos < |q| ==> key < q[pos].key
  {
    if |q| == 0 then 0
    else if key < q[0].key then 0
    else 1 + InsertPos(q[1..], key)
  }

  /** FrameInvoker.Invoke: the list with `e` inserted at InsertPos. */
  function Insert(q: seq<Entry>, e: Entry): (r: seq<Entry>)
    ensures |r| == |q| + 1
    ensures e in r
  {
    var pos := InsertPos(q, e.key);
    q[..pos] + [e] + q[pos..]
  }

  /** Invoke adds exactly the new entry: the old entries and the new one, nothing lost or duplicated. */
  lemma InsertPermutes(q: seq<Entry>, e: Entry)
    ensures multiset(Insert(q, e)) == multiset(q) + multiset{e}
  {
    var pos := InsertPos(q, e.key);
    assert q == q[..pos] + q[pos..];
  }

  /** Inserting into a sorted queue keeps it sorted. */
  lemma InsertKeepsSorted(q: seq<Entry>, e: Entry)
    requires Sorted(q)
    ensures Sorted(Insert(q, e))
  {
    var pos := InsertPos(q, e.key);
    var r := Insert(q, e);
    assert forall i :: 0 <= i < pos ==> r[i] == q[i];
    assert r[pos] == e;
    assert forall i :: pos < i < |r| ==> r[i] == q[i - 1];
    assert forall i :: pos <= i < |q| ==> e.key <= q[i].key;
  }

  /** The entries of `q` whose key is exactly `k`, in list order. */
  function WithKey(q: seq<Entry>, k: real): seq<Entry> {
    if |q| == 0 then []
    else if q[0].key == k then [q[0]] + WithKey(q[1..], k)
    else WithKey(q[1..], k)
  }

  /** The entries of `q` whose key is at most `k`, in list order. */
  function AtMost(q: seq<Entry>, k: real): seq<Entry> {
    if |q| == 0 then []
    else if q[0].key <= k then [q[0]] + AtMost(q[1..], k)
    else AtMost(q[1..], k)
  }

  /** The entries of `q` whose key exceeds `k`, in list order. */
  function Above(q: seq<Entry>, k: real): seq<Entry> {
    if |q| == 0 then []
    else if q[0].key > k then [q[0]] + Above(q[1..], k)
    else Above(q[1..], k)
  }

  lemma {:induction false} WithKeyAppend(a: seq<Entry>, b: seq<Entry>, k: real)
    ensures WithKey(a + b, k) == WithKey(a, k) + WithKey(b, k)
    decreases |a|
  {
    if |a| > 0 {
      assert (a + b)[1..] == a[1..] + b;
      WithKeyAppend(a[1..], b, k);
    } else {
      assert a + b == b;
    }
  }

  lemma {:induction false} WithKeyNone(q: seq<Entry>, k: real)
    requires forall i :: 0 <= i < |q| ==> q[i].key != k
    ensures WithKey(q, k) == []
    decreases |q|
  {
    if |q| > 0 {
      WithKeyNone(q[1..], k);
    }
  }

  /**
    Insertion is stable: among the entries of one key, the new entry comes
    after all those already queued, and the order of the others is unchanged.
  */
  lemma InsertStable(q: seq<Entry>, e: Entry, k: real)
    requires Sorted(q)
    ensures WithKey(Insert(q, e), k) == if e.key == k then WithKey(q, k) + [e] else WithKey(q, k)
  {
    var pos := InsertPos(q, e.key);
    WithKeySplice(q, pos, e, k);
    if e.key == k {
      WithKeyAbove(q, pos, k);
    }
  }

  lemma WithKeySplice(q: seq<Entry>, pos: nat, e: Entry, k: real)
    requires pos <= |q|
    ensures WithKey(q[..pos] + [e] + q[pos..], k) == WithKey(q[..pos], k) + (if e.key == k then [e] else []) + WithKey(q[pos..], k)
    ensures WithKey(q, k) == WithKey(q[..pos], k) + WithKey(q[pos..], k)
  {
    WithKeyAppend(q[..pos] + [e], q[pos..], k);
    WithKeyAppend(q[..pos], [e], k);
    WithKeyAppend(q[..pos], q[pos..], k);
    assert [e][1..] == [];
    assert q[..pos] + q[pos..] == q;
  }

  lemma WithKeyAbove(q: seq<Entry>, pos: nat, k: real)
    requires Sorted(q) && pos <= |q| && (pos < |q| ==> k < q[pos].key)
    ensures WithKey(q[pos..], k) == []
  {
    var hi := q[pos..];
    forall i | 0 <= i < |hi|
      ensures hi[i].key != k
    {
      assert hi[i] == q[pos + i] && q[pos].key <= q[pos + i].key;
    }
    WithKeyNone(hi, k);
  }

  lemma {:induction false} SortedSplit(q: seq<Entry>, k: real, pos: nat)
    requires Sorted(q) && pos <= |q|
    requires forall i :: 0 <= i < pos ==> q[i].key <= k
    requires pos < |q| ==> k < q[pos].key
    ensures AtMost(q, k) == q[..pos] && Above(q, k) == q[pos..]
    decreases |q|
  {
    if |q| > 0 {
      if pos > 0 {
        SortedSplit(q[1..], k, pos - 1);
        assert q[..pos] == [q[0]] + q[1..][..pos - 1];
        assert q[pos..] == q[1..][pos - 1..];
      } else {
        assert forall i :: 0 <= i < |q| ==> k < q[i].key;
        SortedSplit(q[1..], k, 0);
      }
    }
  }

  /**
    On a sorted queue, Insert is "every entry not after the new key, then the
    new entry, then every later one" — a definition that does not mention the
    scan.
  */
  lemma InsertSortedSplits(q: seq<Entry>, e: Entry)
    requires Sorted(q)
    ensures Insert(q, e) == AtMost(q, e.key) + [e] + Above(q, e.key)
  {
    SortedSplit(q, e.key, InsertPos(q, e.key));
  }

  /** The actions of a queue, in list order. */
  function Actions(q: seq<Entry>): (r: seq<Action>)
    ensures |r| == |q|
    ensures forall i :: 0 <= i < |q| ==> r[i] == q[i].action
  {
    if |q| == 0 then [] else [q[0].action] + Actions(q[1..])
  }

  /** What InvokeImmediate leaves: the queue emptied and its actions performed in order. */
  datatype Flushed = Flushed(queue: seq<Entry>, performed: seq<Action>)

  /**
    FrameInvoker.InvokeImmediate: every queued action, in list order, appended
    to what has been performed so far; the queue is left empty.
  */
  function Flush(q: seq<Entry>, performed: seq<Action>): (r: Flushed)
    ensures r.queue == []
    ensures |r.performed| == |performed| + |q|
    ensures r.performed[..|performed|] == performed
    ensures forall i :: 0 <= i < |q| ==> r.performed[|performed| + i] == q[i].action
  {
    Flushed([], performed + Actions(q))
  }

  /** The position of the first queued action that throws, or the queue's length when none does. */
  function FirstThrow(q: seq<Entry>, throws: Action -> bool): (r: nat)
    ensures r <= |q|
    ensures forall i :: 0 <= i < r ==> !throws(q[i].action)
    ensures r < |q| ==> throws(q[r].action)
  {
    if |q| == 0 then 0
    else if throws(q[0].action) then 0
    else 1 + FirstThrow(q[1..], throws)
  }

  /** What InvokeImmediate leaves when a callback may throw, and whether one did. */
  datatype Invoked = Invoked(queue: seq<Entry>, performed: seq<Action>, thrown: bool)

  /**
    FrameInvoker.InvokeImmediate with callbacks that may throw (`throws` says
    which): it has no catch, so the first throwing callback ends the loop after
    the callbacks before it and itself have run, and the exception skips the
    Clear that follows the loop, leaving every entry queued.
  */
  function InvokeAll(q: seq<Entry>, performed: seq<Action>, throws: Action -> bool): (r: Invoked)
    ensures r.thrown <==> exists i :: 0 <= i < |q| && throws(q[i].action)
    ensures !r.thrown ==> r.queue == Flush(q, performed).queue && r.performed == Flush(q, performed).performed
    ensures r.thrown ==> FirstThrow(q, throws) < |q| && r.queue == q && r.performed == performed + Actions(q[..FirstThrow(q, throws) + 1])
  {
    var k := FirstThrow(q, throws);
    if k == |q| then
      assert q[..k] == q;
      Invoked([], performed + Actions(q), false)
    else Invoked(q, performed + Actions(q[..k + 1]), true)
  }
}
