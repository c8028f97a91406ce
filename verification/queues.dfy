/** The first-in first-out queue of PyMath/queue.py, optionally refusing
    items it already holds. A queue is its ordered collection plus the
    `unique` flag; every operation returns the queue's next state.
 */
module Queues {
  import opened Wrappers

  datatype Queue<T> = Queue(items: seq<T>, unique: bool)

  /** What `push` receives: one object, or a list or tuple whose elements
      are pushed in order. */
  datatype Item<T> = Single(value: T) | Many(elems: seq<T>)

  /** The objects an item contributes, in order. */
  function Elements<T>(item: Item<T>): seq<T> {
    match item
    case Single(x) => [x]
    case Many(xs) => xs
  }

  predicate NoDuplicates<T(==)>(s: seq<T>) {
    forall i, j :: 0 <= i < j < |s| ==> s[i] != s[j]
  }

  /** `Queue(default, unique)`: the default collection in order, or nothing
      when it is `None`; duplicates in it are kept even in unique mode. */
  function Init<T>(default: Option<seq<T>>, unique: bool): (q: Queue<T>)
    ensures q.unique == unique
    ensures default.Some? ==> q.items == default.value
    ensures default.None? ==> Length(q) == 0
  {
    Queue(if default.Some? then default.value else [], unique)
  }

  /** `len(queue)`: zero exactly when `pull` has nothing to return. */
  function Length<T>(q: Queue<T>): (n: nat)
    ensures n == 0 <==> Pull(q).0 == None
  {
    |q.items|
  }

  /** Unique mode keeps duplicates the initial collection already has. */
  lemma InitKeepsDuplicates<T>(x: T)
    ensures !NoDuplicates(Init(Some([x, x]), true).items)
  {
    var items := Init(Some([x, x]), true).items;
    assert items[0] == items[1];
  }

  /** Append one object, unless unique mode already holds it. */
  function PushOne<T(==)>(items: seq<T>, x: T, unique: bool): seq<T> {
    if unique && x in items then items else items + [x]
  }

  /** Appending an object not yet held keeps a sequence free of repeats. */
  lemma AppendAbsentKeepsNoDuplicates<T>(items: seq<T>, x: T)
    requires NoDuplicates(items) && x !in items
    ensures NoDuplicates(items + [x])
  {
    var next := items + [x];
    forall i, j | 0 <= i < j < |next|
      ensures next[i] != next[j]
    {
      if j == |items| {
        assert next[i] == items[i];
      }
    }
  }

  /** One step of the unique push: if r extends items + [x] with objects
      held by neither and not repeated, then r extends items with objects
      items does not hold and that are not repeated. */
  lemma FreshSuffixStep<T>(items: seq<T>, x: T, r: seq<T>)
    requires x !in items && items + [x] <= r
    requires forall k :: |items| + 1 <= k < |r| ==> r[k] !in items + [x]
    requires NoDuplicates(r[|items| + 1..])
    ensures forall k :: |items| <= k < |r| ==> r[k] !in items
    ensures NoDuplicates(r[|items|..])
  {
    assert r[|items|] == (items + [x])[|items|] == x;
    forall k | |items| + 1 <= k < |r|
      ensures r[k] !in items
    {
      assert r[k] !in items + [x];
    }
    var added := r[|items|..];
    forall i, j | 0 <= i < j < |added|
      ensures added[i] != added[j]
    {
      assert added[j] == r[|items| + j];
      if i == 0 {
        assert added[j] !in items + [x];
      } else {
        assert added[i] == r[|items| + 1..][i - 1] && added[j] == r[|items| + 1..][j - 1];
      }
    }
  }

  /** Unique-mode push of a container: each element in order, skipping the
      ones already held (including earlier elements of the container). So
      exactly the elements not already held are added, each once. */
  function PushEach<T(==)>(items: seq<T>, xs: seq<T>): (r: seq<T>)
    ensures items <= r
    ensures forall i :: 0 <= i < |r| ==> r[i] in items || r[i] in xs
    ensures forall i :: 0 <= i < |xs| ==> xs[i] in r
    ensures forall k :: |items| <= k < |r| ==> r[k] !in items
    ensures NoDuplicates(r[|items|..])
    ensures NoDuplicates(items) ==> NoDuplicates(r)
    decreases |xs|
  {
    if |xs| == 0 then items
    else
      var next := PushOne(items, xs[0], true);
      assert NoDuplicates(items) ==> NoDuplicates(next) by {
        if NoDuplicates(items) && xs[0] !in items {
          AppendAbsentKeepsNoDuplicates(items, xs[0]);
        }
      }
      var r := PushEach(next, xs[1..]);
      assert xs[0] in next && next <= r;
      assert forall i :: 1 <= i < |xs| ==> xs[i] == xs[1..][i - 1];
      assert (forall k :: |items| <= k < |r| ==> r[k] !in items) && NoDuplicates(r[|items|..]) by {
        if xs[0] !in items {
          FreshSuffixStep(items, xs[0], r);
        }
      }
      r
  }

  /** A unique queue that already holds a repeat gains only the elements of
      a pushed list it does not hold: [1, 2] onto [1, 1] gives [1, 1, 2]. */
  lemma UniquePushOntoRepeats()
    ensures Push(Init(Some([1, 1]), true), Many([1, 2])).items == [1, 1, 2]
  {
    assert PushOne([1, 1], 1, true) == [1, 1];
    assert PushOne([1, 1], 2, true) == [1, 1, 2];
    assert [1, 2][1..] == [2];
  }

  /** `queue.push(item)`. A single object is appended, in unique mode only
      when absent. A list or tuple is extended onto the queue, in unique
      mode one new element at a time. */
  function Push<T(==)>(q: Queue<T>, item: Item<T>): (r: Queue<T>)
    ensures r.unique == q.unique
    ensures q.items <= r.items
    ensures forall i :: 0 <= i < |r.items| ==> r.items[i] in q.items || r.items[i] in Elements(item)
    ensures forall i :: 0 <= i < |Elements(item)| ==> Elements(item)[i] in r.items
    ensures !q.unique ==> r.items == q.items + Elements(item)
    ensures q.unique && NoDuplicates(q.items) ==> NoDuplicates(r.items)
    ensures q.unique && item.Single? ==> (r == q <==> item.value in q.items)
    ensures q.unique && item.Single? && item.value !in q.items ==> r.items == q.items + [item.value]
    ensures q.unique && item.Many? ==>
              && (forall k :: |q.items| <= k < |r.items| ==> r.items[k] !in q.items)
              && NoDuplicates(r.items[|q.items|..])
  {
    match item
    case Single(x) =>
      var r := q.(items := PushOne(q.items, x, q.unique));
      assert q.unique && NoDuplicates(q.items) ==> NoDuplicates(r.items) by {
        if q.unique && NoDuplicates(q.items) {
          assert PushEach(q.items, [x]) == r.items;
        }
      }
      assert r.items != q.items <== x !in q.items || !q.unique by {
        if x !in q.items || !q.unique {
          assert |r.items| == |q.items| + 1;
        }
      }
      r
    case Many(xs) =>
      if !q.unique then q.(items := q.items + xs)
      else q.(items := PushEach(q.items, xs))
  }

  /** `queue.pull()`: the first object and the queue without it, or `None`
      and the unchanged queue when it is empty. */
  function Pull<T>(q: Queue<T>): (r: (Option<T>, Queue<T>))
    ensures r.1.unique == q.unique
    ensures r.0 == None <==> |q.items| == 0
    ensures r.0 == None ==> r.1 == q
    ensures r.0.Some? ==> [r.0.value] + r.1.items == q.items
  {
    if |q.items| == 0 then (None, q)
    else (Some(q.items[0]), q.(items := q.items[1..]))
  }

  /** `push` and `pull` move the length by one object each: a push adds
      the objects it stores, a pull on a non-empty queue removes one. */
  lemma PushPullLength<T>(q: Queue<T>, item: Item<T>)
    ensures Length(q) > 0 ==> Length(Pull(q).1) == Length(q) - 1
    ensures !q.unique ==> Length(Push(q, item)) == Length(q) + |Elements(item)|
    ensures q.unique && item.Single? ==>
              Length(Push(q, item)) == Length(q) + (if item.value in q.items then 0 else 1)
  {
  }

  /** Pushing behind a non-empty queue, in either mode, does not change what
      comes out next: earlier items leave first. When the push appends, the
      rest of the queue is the rest of the old one with the push applied. */
  lemma PullAfterPush<T>(q: Queue<T>, item: Item<T>)
    requires |q.items| > 0
    ensures Pull(Push(q, item)).0 == Some(q.items[0])
    ensures !q.unique ==> Pull(Push(q, item)).1 == Push(Pull(q).1, item)
    ensures q.unique && item.Single? && item.value !in q.items ==>
              Pull(Push(q, item)).1 == Push(Pull(q).1, item)
  {
    var rest := Pull(q).1;
    if !q.unique {
      assert (q.items + Elements(item))[1..] == rest.items + Elements(item);
    } else if item.Single? && item.value !in q.items {
      assert item.value !in rest.items by {
        assert forall k :: 0 <= k < |rest.items| ==> rest.items[k] == q.items[k + 1];
      }
      assert (q.items + [item.value])[1..] == rest.items + [item.value];
    }
  }

  /** What a sequence of pulls returns until `pull` answers `None`: one
      object per queued item, each taken from the queue. */
  function Drain<T>(q: Queue<T>): (r: seq<T>)
    ensures |r| == Length(q)
    ensures forall i :: 0 <= i < |r| ==> r[i] in q.items
    decreases |q.items|
  {
    var (x, rest) := Pull(q);
    if x.None? then [] else [x.value] + Drain(rest)
  }

  /** Pulling until empty returns the items in queue order. */
  lemma {:induction false} DrainIsInOrder<T>(q: Queue<T>)
    ensures Drain(q) == q.items
    decreases |q.items|
  {
    if |q.items| > 0 {
      DrainIsInOrder(Pull(q).1);
    }
  }

  /** A queue built from a collection gives the collection back, in order,
      when it is pulled until empty; one built from nothing gives nothing. */
  lemma InitThenDrain<T>(xs: seq<T>, unique: bool)
    ensures Drain(Init(Some(xs), unique)) == xs
    ensures Drain(Init<T>(None, unique)) == []
  {
    DrainIsInOrder(Init(Some(xs), unique));
    DrainIsInOrder(Init<T>(None, unique));
  }

  /** Push single objects one after another. */
  function PushAll<T(==)>(q: Queue<T>, xs: seq<T>): Queue<T>
    decreases |xs|
  {
    if |xs| == 0 then q else PushAll(Push(q, Single(xs[0])), xs[1..])
  }

  /** A single object that unique mode does not refuse is appended. */
  lemma PushSingleAppends<T>(q: Queue<T>, x: T)
    requires q.unique ==> x !in q.items
    ensures Push(q, Single(x)) == Queue(q.items + [x], q.unique)
  {
  }

  /** Single objects pushed one by one are appended in order: always in
      non-unique mode, and in unique mode when they are distinct and not
      yet queued. */
  lemma {:induction false} PushAllAppends<T>(q: Queue<T>, xs: seq<T>)
    requires q.unique ==> NoDuplicates(xs) && forall i :: 0 <= i < |xs| ==> xs[i] !in q.items
    ensures PushAll(q, xs) == Queue(q.items + xs, q.unique)
    decreases |xs|
  {
    if |xs| > 0 {
      PushSingleAppends(q, xs[0]);
      var next := Queue(q.items + [xs[0]], q.unique);
      assert PushAll(q, xs) == PushAll(next, xs[1..]);
      assert q.unique ==> NoDuplicates(xs[1..]) && forall i :: 0 <= i < |xs[1..]| ==> xs[1..][i] !in next.items by {
        if q.unique {
          forall i | 0 <= i < |xs[1..]|
            ensures xs[1..][i] !in next.items
          {
            assert xs[1..][i] == xs[i + 1] != xs[0];
          }
          forall i, j | 0 <= i < j < |xs[1..]|
            ensures xs[1..][i] != xs[1..][j]
          {
            assert xs[1..][i] == xs[i + 1] && xs[1..][j] == xs[j + 1];
          }
        }
      }
      PushAllAppends(next, xs[1..]);
      assert q.items + [xs[0]] + xs[1..] == q.items + xs;
    }
  }

  /** First in, first out: objects pushed one by one onto an empty queue
      are pulled in the order they were pushed, in unique mode as long as
      they are distinct. */
  lemma FirstInFirstOut<T>(xs: seq<T>, unique: bool)
    requires unique ==> NoDuplicates(xs)
    ensures Drain(PushAll(Init(None, unique), xs)) == xs
  {
    PushAllAppends(Init(None, unique), xs);
    DrainIsInOrder(PushAll(Init(None, unique), xs));
  }

  /** Unique mode pulls a repeated object once: pushing x twice onto an
      empty unique queue drains as [x]. */
  lemma UniqueQueueDropsRepeats<T>(x: T)
    ensures Drain(PushAll(Init(None, true), [x, x])) == [x]
  {
    var once := Push(Init(None, true), Single(x));
    assert once.items == [x];
    assert [x, x][1..] == [x];
    assert PushAll(Init(None, true), [x, x]) == PushAll(once, [x]);
    assert [x][1..] == [];
    assert PushAll(once, [x]) == once;
    DrainIsInOrder(once);
  }

  /** `queue.flush()`: iterating the queue pulls until it is empty (the
      iterator's position never advances), and the pulled objects become a
      new queue in unique=False mode. Returns the new queue and the drained
      original. */
  method Flush<T>(q: Queue<T>) returns (flushed: Queue<T>, drained: Queue<T>)
    ensures flushed.items == q.items && !flushed.unique
    ensures drained.items == [] && drained.unique == q.unique
  {
    var pulled: seq<T> := [];
    drained := q;
    while 0 < |drained.items|
      invariant pulled + drained.items == q.items
      invariant drained.unique == q.unique
      decreases |drained.items|
    {
      var (x, rest) := Pull(drained);
      pulled := pulled + [x.value];
      drained := rest;
    }
    flushed := Init(if |pulled| > 0 then Some(pulled) else None, false);
  }

  /** An entry of the collection as the source stores it, where a list or
      tuple can end up stored whole. */
  datatype Entry<T> = Element(value: T) | Container(elems: seq<T>)

  /** Unique-mode push of a list or tuple as written: for every distinct
      element not already held, the whole container is appended once; the
      elements themselves are never added. */
  function UniqueContainerPushAsWritten<T(==)>(entries: seq<Entry<T>>, xs: seq<T>): (r: seq<Entry<T>>)
    ensures entries <= r
    ensures forall k :: |entries| <= k < |r| ==> r[k] == Container(xs)
  {
    var added := set x | x in xs && Element(x) !in entries;
    entries + seq(|added|, _ => Container(xs))
  }

  /** Pushing [1, 2] onto an empty unique queue as written stores the list
      twice and neither 1 nor 2. */
  lemma UniqueContainerPushAsWrittenStoresContainer()
    ensures UniqueContainerPushAsWritten([], [1, 2]) == [Container([1, 2]), Container([1, 2])]
  {
    var none: seq<Entry<int>> := [];
    var added := set x | x in [1, 2] && Element(x) !in none;
    assert added == {1, 2};
    assert |added| == 2;
  }

  /** The corrected push of [1, 2] onto an empty unique queue stores 1 and 2. */
  lemma UniqueContainerPushStoresElements()
    ensures Push(Init(None, true), Many([1, 2])).items == [1, 2]
  {
    assert PushOne([], 1, true) == [1];
    assert PushOne([1], 2, true) == [1, 2];
    assert [1, 2][1..] == [2];
  }
}
