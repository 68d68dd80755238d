/**
 * Identifier bookkeeping shared by the writers and the reader: the
 * contiguity scan of the chunked writer, the maximum-id scan that sizes
 * the dense remapping tables, std::vector::resize, and the +1 shift
 * from 0-based mesh ids to 1-based Lima ids.
 */
module IdScan {

  import opened GmdsMesh

  /** Each id, in iteration order, is the previous one plus 1. */
  predicate Contiguous(ids: seq<nat>)
  {
    forall k :: 0 < k < |ids| ==> ids[k] == ids[k - 1] + 1
  }

  /** The ids are exactly lo, lo+1, ..., lo+|ids|-1 in this order. */
  predicate IsRange(ids: seq<nat>, lo: nat)
  {
    forall k :: 0 <= k < |ids| ==> ids[k] == lo + k
  }

  /** A non-empty id sequence is contiguous exactly when it is the range starting at its first id. */
  lemma {:induction false} ContiguousIffRange(ids: seq<nat>)
    requires |ids| > 0
    ensures Contiguous(ids) <==> IsRange(ids, ids[0])
  {
    if Contiguous(ids) {
      ContiguousPrefixIsRange(ids, |ids|);
    }
  }

  lemma {:induction false} ContiguousPrefixIsRange(ids: seq<nat>, n: nat)
    requires 0 < n <= |ids| && Contiguous(ids)
    ensures forall k :: 0 <= k < n ==> ids[k] == ids[0] + k
    decreases n
  {
    if n > 1 {
      ContiguousPrefixIsRange(ids, n - 1);
      assert ids[n - 1] == ids[n - 2] + 1;
    }
  }

  /** No id occurs twice. */
  predicate DistinctIds(ids: seq<nat>)
  {
    forall i, j :: 0 <= i < j < |ids| ==> ids[i] != ids[j]
  }

  /** The minID sent in a header: first iterated id plus 1, or NullID when there is none. */
  function HeaderMinID(ids: seq<nat>): int
  {
    if |ids| == 0 then NullID else ids[0] + 1
  }

  /** When the ids are contiguous, the header's minID is the smallest Lima id. */
  lemma ContiguousMinID(ids: seq<nat>)
    requires |ids| > 0 && Contiguous(ids)
    ensures forall k :: 0 <= k < |ids| ==> HeaderMinID(ids) <= ids[k] + 1
  {
    ContiguousIffRange(ids);
  }

  /**
   * The contiguity scan of LimaWriterAPI::writeNodes (and of the edge,
   * face and region writers): one pass that stops at the first gap.
   */
  method ScanContiguity(ids: seq<nat>) returns (isContiguous: bool, minID: int)
    ensures isContiguous <==> Contiguous(ids)
    ensures minID == HeaderMinID(ids)
    ensures |ids| == 0 ==> isContiguous && minID == NullID
  {
    isContiguous := true;
    minID := NullID;
    if |ids| > 0 {
      var currentID := ids[0];
      minID := currentID + 1;
      var k := 1;
      while k < |ids|
        invariant 1 <= k <= |ids|
        invariant currentID == ids[k - 1]
        invariant forall j :: 0 < j < k ==> ids[j] == ids[j - 1] + 1
      {
        if ids[k] != currentID + 1 {
          isContiguous := false;
          break;
        }
        currentID := ids[k];
        k := k + 1;
      }
    }
  }

  /** The largest id, 0 when there is none. */
  function MaxOf(ids: seq<nat>): (r: nat)
    ensures forall k :: 0 <= k < |ids| ==> ids[k] <= r
    ensures |ids| > 0 ==> r in ids
  {
    if |ids| == 0 then 0
    else
      var rest := MaxOf(ids[..|ids| - 1]);
      if ids[|ids| - 1] > rest then ids[|ids| - 1] else rest
  }

  /** The max_id loops of the writers and the reader: a running maximum that starts at 0. */
  method MaxId(ids: seq<nat>) returns (maxId: nat)
    ensures maxId == MaxOf(ids)
  {
    maxId := 0;
    var i := 0;
    while i < |ids|
      invariant 0 <= i <= |ids|
      invariant maxId == MaxOf(ids[..i])
    {
      assert ids[..i + 1][..i] == ids[..i];
      if ids[i] > maxId {
        maxId := ids[i];
      }
      i := i + 1;
    }
    assert ids[..i] == ids;
  }

  /** std::vector::resize: existing entries are kept, new ones take the default value. */
  function Resize<T>(s: seq<T>, n: nat, d: T): (r: seq<T>)
    ensures |r| == n
    ensures forall k :: 0 <= k < n ==> r[k] == (if k < |s| then s[k] else d)
  {
    if n <= |s| then s[..n] else s + seq(n - |s|, _ => d)
  }

  /** The +1 shift from mesh ids to Lima ids. */
  function Shift(ids: seq<nat>): (r: seq<nat>)
    ensures |r| == |ids| && forall k :: 0 <= k < |ids| ==> r[k] == ids[k] + 1
  {
    seq(|ids|, k requires 0 <= k < |ids| => ids[k] + 1)
  }

  /** The +1 shift applied to group members. */
  function ShiftMembers(ids: seq<int>): (r: seq<int>)
    ensures |r| == |ids| && forall k :: 0 <= k < |ids| ==> r[k] == ids[k] + 1
  {
    seq(|ids|, k requires 0 <= k < |ids| => ids[k] + 1)
  }
}
