/** A bbolt bucket: an ordered map from string keys to values, kept as a list of
    entries whose keys are strictly increasing in byte order. A cursor walks this
    list forwards (First/Next) or backwards (Last/Prev). */
module OrderedMap {
  import opened Results
  import opened Strings

  datatype Entry<V> = Entry(key: string, value: V)

  /** Keys strictly increase along the list, so each key occurs at most once. */
  predicate Sorted<V>(b: seq<Entry<V>>) {
    forall i, j :: 0 <= i < j < |b| ==> Less(b[i].key, b[j].key)
  }

  function Keys<V>(b: seq<Entry<V>>): set<string> {
    set i | 0 <= i < |b| :: b[i].key
  }

  function Values<V>(b: seq<Entry<V>>): (r: seq<V>)
    ensures |r| == |b|
    ensures forall i :: 0 <= i < |b| ==> r[i] == b[i].value
  {
    seq(|b|, i requires 0 <= i < |b| => b[i].value)
  }

  lemma KeysSplit<V>(b: seq<Entry<V>>)
    requires |b| > 0
    ensures Keys(b) == {b[0].key} + Keys(b[1..])
    ensures Keys(b) == Keys(b[..|b| - 1]) + {b[|b| - 1].key}
  {
    assert forall i :: 0 < i < |b| ==> b[1..][i - 1] == b[i];
    assert forall i :: 0 <= i < |b| - 1 ==> b[..|b| - 1][i] == b[i];
  }

  /** bucket.Get: the value stored under `k`, if any. */
  function Get<V>(b: seq<Entry<V>>, k: string): (r: Option<V>)
    ensures r.Some? <==> k in Keys(b)
  {
    if |b| == 0 then None
    else
      KeysSplit(b);
      if b[0].key == k then Some(b[0].value) else Get(b[1..], k)
  }

  /** In a sorted bucket the entry at each position is the one Get finds. */
  lemma {:induction false} GetAt<V>(b: seq<Entry<V>>, i: nat)
    requires Sorted(b) && i < |b|
    ensures Get(b, b[i].key) == Some(b[i].value)
  {
    if i > 0 {
      LessIrreflexive(b[i].key);
      assert b[1..][i - 1] == b[i];
      GetAt(b[1..], i - 1);
    }
  }

  lemma GetCons<V>(e: Entry<V>, t: seq<Entry<V>>, k: string)
    ensures Get([e] + t, k) == if e.key == k then Some(e.value) else Get(t, k)
  {
    assert ([e] + t)[1..] == t;
  }

  /** bucket.Put: insert `k`, or overwrite the value already stored under it. */
  function Put<V>(b: seq<Entry<V>>, k: string, v: V): (r: seq<Entry<V>>)
    requires Sorted(b)
    ensures Sorted(r)
    ensures Keys(r) == Keys(b) + {k}
    ensures |r| == if k in Keys(b) then |b| else |b| + 1
    ensures Get(r, k) == Some(v)
    ensures forall k' :: k' != k ==> Get(r, k') == Get(b, k')
  {
    if |b| == 0 then
      GetCons(Entry(k, v), [], k);
      [Entry(k, v)]
    else if b[0].key == k then
      PutHere(b, k, v);
      [Entry(k, v)] + b[1..]
    else if Less(k, b[0].key) then
      PutFront(b, k, v);
      [Entry(k, v)] + b
    else
      var rest := Put(b[1..], k, v);
      LessTotal(k, b[0].key);
      PutLater(b, k, v, rest);
      [b[0]] + rest
  }

  lemma PutHere<V>(b: seq<Entry<V>>, k: string, v: V)
    requires Sorted(b) && |b| > 0 && b[0].key == k
    ensures var r := [Entry(k, v)] + b[1..];
      && Sorted(r) && Keys(r) == Keys(b) + {k} && |r| == |b| && k in Keys(b)
      && Get(r, k) == Some(v) && forall k' :: k' != k ==> Get(r, k') == Get(b, k')
  {
    var r := [Entry(k, v)] + b[1..];
    KeysSplit(b);
    KeysSplit(r);
    assert r[1..] == b[1..];
    assert b == [b[0]] + b[1..];
    forall k' ensures Get(r, k') == if k' == k then Some(v) else Get(b, k') {
      GetCons(Entry(k, v), b[1..], k');
      GetCons(b[0], b[1..], k');
    }
  }

  lemma PutFront<V>(b: seq<Entry<V>>, k: string, v: V)
    requires Sorted(b) && |b| > 0 && Less(k, b[0].key)
    ensures var r := [Entry(k, v)] + b;
      && Sorted(r) && Keys(r) == Keys(b) + {k} && |r| == |b| + 1 && k !in Keys(b)
      && Get(r, k) == Some(v) && forall k' :: k' != k ==> Get(r, k') == Get(b, k')
  {
    var r := [Entry(k, v)] + b;
    KeysSplit(r);
    assert r[1..] == b;
    forall j | 0 <= j < |b|
      ensures Less(k, b[j].key)
    {
      if j > 0 {
        LessTransitive(k, b[0].key, b[j].key);
      }
    }
    forall j | 0 <= j < |b| ensures b[j].key != k {
      LessIrreflexive(k);
    }
    forall k' ensures Get(r, k') == if k' == k then Some(v) else Get(b, k') {
      GetCons(Entry(k, v), b, k');
    }
  }

  lemma PutLater<V>(b: seq<Entry<V>>, k: string, v: V, rest: seq<Entry<V>>)
    requires Sorted(b) && |b| > 0 && Less(b[0].key, k)
    requires Sorted(rest) && Keys(rest) == Keys(b[1..]) + {k}
    requires |rest| == if k in Keys(b[1..]) then |b| - 1 else |b|
    requires Get(rest, k) == Some(v)
    requires forall k' :: k' != k ==> Get(rest, k') == Get(b[1..], k')
    ensures var r := [b[0]] + rest;
      && Sorted(r) && Keys(r) == Keys(b) + {k} && |r| == (if k in Keys(b) then |b| else |b| + 1)
      && Get(r, k) == Some(v) && forall k' :: k' != k ==> Get(r, k') == Get(b, k')
  {
    var r := [b[0]] + rest;
    PutLaterSorted(b, k, rest);
    KeysSplit(b);
    KeysSplit(r);
    assert r[1..] == rest;
    LessIrreflexive(k);
    assert k in Keys(b) <==> k in Keys(b[1..]);
    PutLaterGet(b, k, v, rest);
  }

  lemma PutLaterSorted<V>(b: seq<Entry<V>>, k: string, rest: seq<Entry<V>>)
    requires Sorted(b) && |b| > 0 && Less(b[0].key, k)
    requires Sorted(rest) && Keys(rest) == Keys(b[1..]) + {k}
    ensures Sorted([b[0]] + rest)
  {
    var r := [b[0]] + rest;
    forall j | 0 < j < |r|
      ensures Less(b[0].key, r[j].key)
    {
      assert r[j] == rest[j - 1];
      assert rest[j - 1].key in Keys(rest);
      if rest[j - 1].key != k {
        var i :| 0 <= i < |b[1..]| && b[1..][i].key == rest[j - 1].key;
        assert b[1..][i] == b[i + 1];
      }
    }
  }

  lemma PutLaterGet<V>(b: seq<Entry<V>>, k: string, v: V, rest: seq<Entry<V>>)
    requires |b| > 0 && b[0].key != k
    requires Get(rest, k) == Some(v)
    requires forall k' :: k' != k ==> Get(rest, k') == Get(b[1..], k')
    ensures Get([b[0]] + rest, k) == Some(v)
    ensures forall k' :: k' != k ==> Get([b[0]] + rest, k') == Get(b, k')
  {
    assert b == [b[0]] + b[1..];
    forall k' ensures Get([b[0]] + rest, k') == if k' == k then Some(v) else Get(b, k') {
      GetCons(b[0], rest, k');
      GetCons(b[0], b[1..], k');
    }
  }

  /** The entry at position `i` is the last one in the batch carrying its key. */
  predicate LastWithKey<V>(items: seq<Entry<V>>, i: int) {
    0 <= i < |items| && forall j :: i < j < |items| ==> items[j].key != items[i].key
  }

  /** The Put loop over a batch, in batch order: the last write to a key wins, and
      keys the batch does not mention keep their values. */
  function PutAll<V>(b: seq<Entry<V>>, items: seq<Entry<V>>): (r: seq<Entry<V>>)
    requires Sorted(b)
    ensures Sorted(r)
    ensures Keys(r) == Keys(b) + Keys(items)
    ensures forall k :: k !in Keys(items) ==> Get(r, k) == Get(b, k)
    ensures forall i :: LastWithKey(items, i) ==> Get(r, items[i].key) == Some(items[i].value)
    decreases |items|
  {
    if |items| == 0 then b
    else
      var n := |items|;
      var mid := PutAll(b, items[..n - 1]);
      var r := Put(mid, items[n - 1].key, items[n - 1].value);
      KeysSplit(items);
      PutAllStep(items[..n - 1], items, mid, r);
      r
  }

  lemma PutAllStep<V>(front: seq<Entry<V>>, items: seq<Entry<V>>, mid: seq<Entry<V>>, r: seq<Entry<V>>)
    requires |items| > 0 && front == items[..|items| - 1]
    requires forall i :: LastWithKey(front, i) ==> Get(mid, front[i].key) == Some(front[i].value)
    requires Get(r, items[|items| - 1].key) == Some(items[|items| - 1].value)
    requires forall k' :: k' != items[|items| - 1].key ==> Get(r, k') == Get(mid, k')
    ensures forall i :: LastWithKey(items, i) ==> Get(r, items[i].key) == Some(items[i].value)
  {
    var n := |items|;
    forall i | LastWithKey(items, i)
      ensures Get(r, items[i].key) == Some(items[i].value)
    {
      if i < n - 1 {
        assert front[i] == items[i];
        assert LastWithKey(front, i);
      }
    }
  }

  /** How many keys of the bucket sort strictly before `k`. */
  function CountBelow<V>(b: seq<Entry<V>>, k: string): nat {
    if |b| == 0 then 0 else (if Less(b[0].key, k) then 1 else 0) + CountBelow(b[1..], k)
  }

  lemma {:induction false} CountBelowNone<V>(b: seq<Entry<V>>, k: string)
    requires forall j :: 0 <= j < |b| ==> !Less(b[j].key, k)
    ensures CountBelow(b, k) == 0
  {
    if |b| > 0 {
      assert forall j :: 0 <= j < |b| - 1 ==> b[1..][j] == b[j + 1];
      CountBelowNone(b[1..], k);
    }
  }

  /** In a sorted bucket exactly `i` keys sort before the key at position `i`. */
  lemma {:induction false} CountBelowAt<V>(b: seq<Entry<V>>, i: nat)
    requires Sorted(b) && i < |b|
    ensures CountBelow(b, b[i].key) == i
  {
    if i == 0 {
      LessIrreflexive(b[0].key);
      forall j | 0 <= j < |b[1..]|
        ensures !Less(b[1..][j].key, b[0].key)
      {
        assert b[1..][j] == b[j + 1];
        LessAsymmetric(b[0].key, b[j + 1].key);
      }
      CountBelowNone(b[1..], b[0].key);
    } else {
      assert b[1..][i - 1] == b[i];
      CountBelowAt(b[1..], i - 1);
    }
  }

  /** Cursor deletion of the first `n` keys: exactly the keys with fewer than `n`
      smaller keys go, and every surviving key keeps its value. */
  function DropSmallest<V>(b: seq<Entry<V>>, n: nat): (r: seq<Entry<V>>)
    requires Sorted(b) && n <= |b|
    ensures Sorted(r) && |r| == |b| - n
    ensures forall k :: k in Keys(r) <==> k in Keys(b) && CountBelow(b, k) >= n
    ensures forall k :: k in Keys(r) ==> Get(r, k) == Get(b, k)
  {
    var r := b[n..];
    forall k | k in Keys(b)
      ensures k in Keys(r) <==> CountBelow(b, k) >= n
      ensures k in Keys(r) ==> Get(r, k) == Get(b, k)
    {
      var i :| 0 <= i < |b| && b[i].key == k;
      CountBelowAt(b, i);
      GetAt(b, i);
      if i >= n {
        assert r[i - n] == b[i];
        GetAt(r, i - n);
      } else {
        forall j | 0 <= j < |r|
          ensures r[j].key != k
        {
          assert r[j] == b[j + n];
          LessIrreflexive(k);
        }
      }
    }
    assert Keys(r) <= Keys(b) by {
      forall j | 0 <= j < |r| ensures r[j].key in Keys(b) {
        assert r[j] == b[j + n];
      }
    }
    r
  }

  /** A sorted bucket holds exactly one entry per key: its length is its key count. */
  lemma {:induction false} SortedKeyCount<V>(b: seq<Entry<V>>)
    requires Sorted(b)
    ensures |Keys(b)| == |b|
  {
    if |b| > 0 {
      KeysSplit(b);
      forall j | 0 <= j < |b[1..]| ensures b[1..][j].key != b[0].key {
        assert b[1..][j] == b[j + 1];
        LessIrreflexive(b[0].key);
      }
      assert b[0].key !in Keys(b[1..]);
      SortedKeyCount(b[1..]);
    }
  }
}
