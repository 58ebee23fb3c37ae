/** A prefix scan over a bucket (cursor Seek(prefix), then Next while the key keeps
    the prefix), as GetAnalysisHistory in internal/storage/bolt.go performs it, and
    the plain filter it is proved to agree with. */
module PrefixScan {
  import opened Strings
  import opened OrderedMap

  /** The values whose key starts with `p`, in key order. */
  function PrefixValues<V>(b: seq<Entry<V>>, p: string): (r: seq<V>)
    ensures |r| <= |b|
  {
    if |b| == 0 then []
    else (if HasPrefix(b[0].key, p) then [b[0].value] else []) + PrefixValues(b[1..], p)
  }

  lemma {:induction false} PrefixValuesAppend<V>(a: seq<Entry<V>>, b: seq<Entry<V>>, p: string)
    ensures PrefixValues(a + b, p) == PrefixValues(a, p) + PrefixValues(b, p)
    decreases |a|
  {
    if |a| == 0 {
      assert a + b == b;
    } else {
      var head := if HasPrefix(a[0].key, p) then [a[0].value] else [];
      assert (a + b)[0] == a[0];
      assert (a + b)[1..] == a[1..] + b;
      PrefixValuesAppend(a[1..], b, p);
      assert PrefixValues(a + b, p) == head + (PrefixValues(a[1..], p) + PrefixValues(b, p));
    }
  }

  /** No key of `b` starts with `p`. */
  lemma {:induction false} PrefixValuesNone<V>(b: seq<Entry<V>>, p: string)
    requires forall j :: 0 <= j < |b| ==> !HasPrefix(b[j].key, p)
    ensures PrefixValues(b, p) == []
    decreases |b|
  {
    if |b| > 0 {
      assert forall j :: 0 <= j < |b| - 1 ==> b[1..][j] == b[j + 1];
      PrefixValuesNone(b[1..], p);
    }
  }

  /** Every key of `b` starts with `p`. */
  lemma {:induction false} PrefixValuesAll<V>(b: seq<Entry<V>>, p: string)
    requires forall j :: 0 <= j < |b| ==> HasPrefix(b[j].key, p)
    ensures PrefixValues(b, p) == Values(b)
    decreases |b|
  {
    if |b| > 0 {
      assert forall j :: 0 <= j < |b| - 1 ==> b[1..][j] == b[j + 1];
      PrefixValuesAll(b[1..], p);
      assert Values(b) == [b[0].value] + Values(b[1..]);
    }
  }

  /** cursor.Seek: the position of the first key not below `p`. */
  function SeekIndex<V>(b: seq<Entry<V>>, p: string): (r: nat)
    requires Sorted(b)
    ensures r <= |b|
    ensures forall j :: 0 <= j < r ==> Less(b[j].key, p)
    ensures r < |b| ==> !Less(b[r].key, p)
  {
    if |b| == 0 || !Less(b[0].key, p) then 0
    else
      assert forall j :: 0 <= j < |b| - 1 ==> b[1..][j] == b[j + 1];
      1 + SeekIndex(b[1..], p)
  }

  /** The first `limit` elements when `limit` is positive; all of them otherwise. */
  function TakeFirst<V>(s: seq<V>, limit: int): (r: seq<V>)
    ensures limit > 0 ==> |r| == if |s| < limit then |s| else limit
    ensures limit <= 0 ==> r == s
    ensures |r| <= |s| && r == s[..|r|]
  {
    if limit > 0 && |s| > limit then s[..limit] else s
  }

  /** Keys before the seek position cannot carry the prefix. */
  lemma BeforeSeekNoPrefix<V>(b: seq<Entry<V>>, p: string)
    requires Sorted(b)
    ensures forall j :: 0 <= j < SeekIndex(b, p) ==> !HasPrefix(b[j].key, p)
  {
    forall j | 0 <= j < SeekIndex(b, p)
      ensures !HasPrefix(b[j].key, p)
    {
      if HasPrefix(b[j].key, p) {
        PrefixNotBelow(b[j].key, p);
        LessIrreflexive(p);
        if Less(p, b[j].key) {
          LessAsymmetric(p, b[j].key);
        }
      }
    }
  }

  /** Once a key at or after the seek position lacks the prefix, no later key has it:
      the keys carrying a prefix are contiguous in key order. */
  lemma AfterRunNoPrefix<V>(b: seq<Entry<V>>, p: string, e: nat)
    requires Sorted(b)
    requires SeekIndex(b, p) <= e < |b| && !HasPrefix(b[e].key, p)
    ensures forall j :: e <= j < |b| ==> !HasPrefix(b[j].key, p)
  {
    var s := SeekIndex(b, p);
    LessTotal(b[s].key, p);
    assert LessEq(p, b[s].key);
    assert LessEq(p, b[e].key) by {
      if s < e {
        if b[s].key != p {
          LessTransitive(p, b[s].key, b[e].key);
        }
      }
    }
    forall j | e < j < |b|
      ensures !HasPrefix(b[j].key, p)
    {
      if HasPrefix(b[j].key, p) {
        PrefixConvex(p, b[e].key, b[j].key);
      }
    }
  }

  /** The loop of GetAnalysisHistory: seek to `p`, then collect values while the
      key keeps the prefix, stopping once a positive `limit` is reached. */
  method Scan<V>(b: seq<Entry<V>>, p: string, limit: int) returns (r: seq<V>)
    requires Sorted(b)
    ensures r == TakeFirst(PrefixValues(b, p), limit)
  {
    var s := SeekIndex(b, p);
    var i := s;
    r := [];
    var count := 0;
    BeforeSeekNoPrefix(b, p);
    while i < |b| && HasPrefix(b[i].key, p)
      invariant s <= i <= |b|
      invariant forall j :: s <= j < i ==> HasPrefix(b[j].key, p)
      invariant r == Values(b[s..i]) && count == |r|
      invariant limit > 0 ==> count <= limit
      decreases |b| - i
    {
      if limit > 0 && count >= limit {
        break;
      }
      assert b[s..i + 1] == b[s..i] + [b[i]];
      r := r + [b[i].value];
      count := count + 1;
      i := i + 1;
    }
    ScanExit(b, p, limit, s, i, r);
  }

  /** Up to position `i` the scan has seen exactly the prefixed values that exist. */
  lemma PrefixValuesSplit<V>(b: seq<Entry<V>>, p: string, s: nat, i: nat)
    requires Sorted(b) && s == SeekIndex(b, p) && s <= i <= |b|
    requires forall j :: s <= j < i ==> HasPrefix(b[j].key, p)
    ensures PrefixValues(b, p) == Values(b[s..i]) + PrefixValues(b[i..], p)
  {
    var pre, mid, post := b[..s], b[s..i], b[i..];
    BeforeSeekNoPrefix(b, p);
    assert forall j :: 0 <= j < |pre| ==> pre[j] == b[j];
    PrefixValuesNone(pre, p);
    assert forall j :: 0 <= j < |mid| ==> mid[j] == b[s + j];
    PrefixValuesAll(mid, p);
    assert b == pre + (mid + post);
    PrefixValuesAppend(pre, mid + post, p);
    PrefixValuesAppend(mid, post, p);
    assert PrefixValues(b, p) == PrefixValues(pre, p) + PrefixValues(mid + post, p);
    assert PrefixValues(mid + post, p) == Values(mid) + PrefixValues(post, p);
  }

  lemma ScanExit<V>(b: seq<Entry<V>>, p: string, limit: int, s: nat, i: nat, r: seq<V>)
    requires Sorted(b) && s == SeekIndex(b, p) && s <= i <= |b|
    requires forall j :: s <= j < i ==> HasPrefix(b[j].key, p)
    requires r == Values(b[s..i])
    requires limit > 0 ==> |r| <= limit
    requires i == |b| || !HasPrefix(b[i].key, p) || (limit > 0 && |r| == limit)
    ensures r == TakeFirst(PrefixValues(b, p), limit)
  {
    PrefixValuesSplit(b, p, s, i);
    if i == |b| {
      assert b[i..] == [];
    } else if !HasPrefix(b[i].key, p) {
      AfterRunNoPrefix(b, p, i);
      assert forall j :: 0 <= j < |b[i..]| ==> b[i..][j] == b[i + j];
      PrefixValuesNone(b[i..], p);
    } else {
      assert (r + PrefixValues(b[i..], p))[..limit] == r;
    }
  }

  /** A value stored under a key with the prefix is among the prefixed values. */
  lemma {:induction false} PrefixValuesHasGet<V>(b: seq<Entry<V>>, p: string, k: string)
    requires HasPrefix(k, p) && Get(b, k).Some?
    ensures Get(b, k).value in PrefixValues(b, p)
    decreases |b|
  {
    if b[0].key != k {
      PrefixValuesHasGet(b[1..], p, k);
    }
  }
}
