/** The chain's logs in order, and the range queries the watcher asks of them. */
module Chain {
  import opened Common
  import opened ChainSync

  ghost predicate ValidChain(chain: seq<ChainLog>) {
    && (forall l <- chain :: !l.removed)
    && (forall i, j :: 0 <= i < j < |chain| ==> chain[i].key.block <= chain[j].key.block && chain[i].key != chain[j].key)
  }

  /** The log itself, if its block lies in the range. */
  function LogWithin(l: ChainLog, lo: uint64, hi: uint64): seq<ChainLog> {
    if lo < l.key.block <= hi then [l] else []
  }

  /** eth_getLogs: the logs of the blocks from lo + 1 to hi. */
  function Fetch(chain: seq<ChainLog>, lo: uint64, hi: uint64): seq<ChainLog> {
    if chain == [] then []
    else LogWithin(chain[0], lo, hi) + Fetch(chain[1..], lo, hi)
  }

  /** How many logs lie in blocks up to b; in a valid chain they are the first ones. */
  function Upto(chain: seq<ChainLog>, b: uint64): (n: nat)
    ensures n <= |chain|
  {
    if chain == [] then 0 else (if chain[0].key.block <= b then 1 else 0) + Upto(chain[1..], b)
  }

  lemma {:induction false} UptoSplits(chain: seq<ChainLog>, b: uint64)
    requires ValidChain(chain)
    ensures forall i :: 0 <= i < |chain| ==> (chain[i].key.block <= b <==> i < Upto(chain, b))
  {
    if chain == [] {
    } else {
      UptoSplits(chain[1..], b);
      if chain[0].key.block > b {
        NoneUpto(chain, b);
      }
      forall i | 0 < i < |chain| ensures chain[i].key.block <= b <==> i < Upto(chain, b) {
        assert chain[i] == chain[1..][i - 1];
      }
    }
  }

  lemma {:induction false} NoneUpto(chain: seq<ChainLog>, b: uint64)
    requires forall l <- chain :: l.key.block > b
    ensures Upto(chain, b) == 0
  {
    if chain == [] {
    } else {
      NoneUpto(chain[1..], b);
    }
  }

  lemma UptoMonotone(chain: seq<ChainLog>, b: uint64, c: uint64)
    requires ValidChain(chain) && b <= c
    ensures Upto(chain, b) <= Upto(chain, c)
  {
    UptoSplits(chain, b);
    UptoSplits(chain, c);
    var n := Upto(chain, b);
    if n > 0 {
      assert chain[n - 1].key.block <= b;
    }
  }

  lemma FetchStep(chain: seq<ChainLog>, lo: uint64, hi: uint64)
    requires chain != []
    ensures Fetch(chain, lo, hi) == LogWithin(chain[0], lo, hi) + Fetch(chain[1..], lo, hi)
  {
  }

  lemma {:induction false} FetchConcat(a: seq<ChainLog>, b: seq<ChainLog>, lo: uint64, hi: uint64)
    ensures Fetch(a + b, lo, hi) == Fetch(a, lo, hi) + Fetch(b, lo, hi)
  {
    if a == [] {
      assert a + b == b && Fetch(a, lo, hi) == [];
    } else {
      assert (a + b)[0] == a[0] && (a + b)[1..] == a[1..] + b;
      FetchStep(a + b, lo, hi);
      FetchStep(a, lo, hi);
      FetchConcat(a[1..], b, lo, hi);
      hide Fetch, LogWithin;
      Regroup(LogWithin(a[0], lo, hi), Fetch(a[1..], lo, hi), Fetch(b, lo, hi));
    }
  }

  lemma {:induction false} FetchAll(a: seq<ChainLog>, lo: uint64, hi: uint64)
    requires forall l <- a :: lo < l.key.block <= hi
    ensures Fetch(a, lo, hi) == a
  {
    if a == [] {
    } else {
      FetchAll(a[1..], lo, hi);
    }
  }

  lemma {:induction false} FetchNone(a: seq<ChainLog>, lo: uint64, hi: uint64)
    requires forall l <- a :: !(lo < l.key.block <= hi)
    ensures Fetch(a, lo, hi) == []
  {
    if a == [] {
    } else {
      FetchNone(a[1..], lo, hi);
    }
  }

  lemma CutOut(chain: seq<ChainLog>, i: nat, j: nat, lo: uint64, hi: uint64)
    requires i <= j <= |chain|
    requires forall k :: 0 <= k < |chain| ==> (lo < chain[k].key.block <= hi <==> i <= k < j)
    ensures Fetch(chain, lo, hi) == chain[i..j]
  {
    assert chain == chain[..i] + (chain[i..j] + chain[j..]);
    FetchConcat(chain[..i], chain[i..j] + chain[j..], lo, hi);
    FetchConcat(chain[i..j], chain[j..], lo, hi);
    FetchNone(chain[..i], lo, hi);
    FetchAll(chain[i..j], lo, hi);
    FetchNone(chain[j..], lo, hi);
  }

  /** A range query cuts a contiguous piece out of the chain, so consecutive ranges tile. */
  lemma FetchIsSlice(chain: seq<ChainLog>, lo: uint64, hi: uint64)
    requires ValidChain(chain) && lo <= hi
    ensures Upto(chain, lo) <= Upto(chain, hi)
    ensures Fetch(chain, lo, hi) == chain[Upto(chain, lo)..Upto(chain, hi)]
  {
    UptoMonotone(chain, lo, hi);
    UptoSplits(chain, lo);
    UptoSplits(chain, hi);
    hide Fetch, Upto, ValidChain;
    CutOut(chain, Upto(chain, lo), Upto(chain, hi), lo, hi);
  }

  lemma {:induction false} FetchWithin(chain: seq<ChainLog>, lo: uint64, hi: uint64)
    ensures forall x :: x in Fetch(chain, lo, hi) <==> x in chain && lo < x.key.block <= hi
  {
    if chain == [] {
    } else {
      FetchWithin(chain[1..], lo, hi);
      assert forall x :: x in chain <==> x == chain[0] || x in chain[1..];
    }
  }

  lemma DistinctKeys(chain: seq<ChainLog>, x: ChainLog, l: ChainLog)
    requires ValidChain(chain) && x in chain && l in chain && x != l
    ensures x.key != l.key
  {
    var i :| 0 <= i < |chain| && chain[i] == x;
    var j :| 0 <= j < |chain| && chain[j] == l;
    assert i < j || j < i;
  }

  lemma NotAfter(chain: seq<ChainLog>, j: nat, end: nat)
    requires ValidChain(chain) && j < end <= |chain|
    ensures chain[j] !in chain[j + 1..end]
  {
    var after := chain[j + 1..end];
    forall x <- after ensures x != chain[j] {
      var k :| 0 <= k < |after| && after[k] == x;
      assert x == chain[j + 1 + k];
    }
  }
}
