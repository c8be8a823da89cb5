/** Node ordering: duplicate removal, known categories first, name-to-index map. */
module NodeOrder {
  import opened Seqs

  /** The distinct elements of `scan`, each kept at its first occurrence
      (`pd.unique`). */
  function FirstOccurrences<T(==,!new)>(scan: seq<T>): (r: seq<T>)
    ensures Distinct(r)
    ensures forall x :: x in r <==> x in scan
  {
    if scan == [] then []
    else
      var prefix := scan[..|scan| - 1];
      var last := scan[|scan| - 1];
      assert forall x :: x in scan <==> x in prefix || x == last;
      var seen := FirstOccurrences(prefix);
      if last in seen then seen else seen + [last]
  }

  /** `FirstOccurrences` lists the nodes in first-seen order. */
  lemma {:induction false} FirstOccurrencesInOrder<T(!new)>(scan: seq<T>)
    ensures InOrderOf(FirstOccurrences(scan), scan)
  {
    if scan != [] {
      var n := |scan| - 1;
      var prefix, last := scan[..n], scan[n];
      assert scan == prefix + [last];
      var seen := FirstOccurrences(prefix);
      FirstOccurrencesInOrder(prefix);
      forall i | 0 <= i < |seen| ensures IndexOf(scan, seen[i]) == IndexOf(prefix, seen[i]) {
        IndexOfPrefix(scan, n, seen[i]);
      }
      if last !in seen {
        var r := seen + [last];
        assert IndexOf(scan, last) == n by {
          assert last !in prefix;
        }
        forall i, j | 0 <= i < j < |r| ensures IndexOf(scan, r[i]) < IndexOf(scan, r[j]) {
          assert r[i] == seen[i];
          if j < |seen| { assert r[j] == seen[j]; }
        }
      }
    }
  }

  /** The known categories that occur among `nodes`, in the known list's order. */
  function KnownPresent<T(==,!new)>(known: seq<T>, nodes: seq<T>): (r: seq<T>)
    ensures forall x :: x in r <==> x in known && x in nodes
  {
    Filter(known, t => t in nodes)
  }

  /** The nodes that are not among `KnownPresent`, in the order of `nodes`. */
  function OtherNodes<T(==,!new)>(known: seq<T>, nodes: seq<T>): (r: seq<T>)
    ensures forall x :: x in r <==> x in nodes && x !in known
  {
    var present := KnownPresent(known, nodes);
    Filter(nodes, t => t !in present)
  }

  /** Known categories first, then every other node (`KnownFirstOrder`
      states what this order promises). */
  function KnownFirst<T(==,!new)>(known: seq<T>, nodes: seq<T>): seq<T>
  {
    KnownPresent(known, nodes) + OtherNodes(known, nodes)
  }

  /** What the final node order promises: it repeats nothing and holds
      exactly the nodes; its first `k` entries are the known categories
      present, in the known list's order; the rest are the other nodes, in
      the order of `nodes`. */
  lemma KnownFirstOrder<T(!new)>(known: seq<T>, nodes: seq<T>)
    requires Distinct(known) && Distinct(nodes)
    ensures var order, k := KnownFirst(known, nodes), |KnownPresent(known, nodes)|;
      && Distinct(order)
      && (forall x :: x in order <==> x in nodes)
      && k <= |order|
      && (forall i :: 0 <= i < |order| ==> (order[i] in known <==> i < k))
      && InOrderOf(order[..k], known)
      && InOrderOf(order[k..], nodes)
  {
    var present, others := KnownPresent(known, nodes), OtherNodes(known, nodes);
    var order := present + others;
    DistinctInOwnOrder(known);
    FilterInOrder(known, t => t in nodes, known);
    DistinctInOwnOrder(nodes);
    FilterInOrder(nodes, t => t !in present, nodes);
    InOrderIsDistinct(present, known);
    InOrderIsDistinct(others, nodes);
    assert order[..|present|] == present && order[|present|..] == others;
    DistinctConcat(present, others);
    forall i | 0 <= i < |order| ensures order[i] in known <==> i < |present| {
      if i < |present| { assert order[i] in present; } else { assert order[i] in others; }
    }
  }

  /** `{name: idx for idx, name in enumerate(order)}`: a later position
      overwrites an earlier one. */
  function NodeMap<T(==,!new)>(order: seq<T>): (m: map<T, nat>)
    ensures forall x :: x in m <==> x in order
    ensures forall x :: x in m ==> m[x] < |order| && order[m[x]] == x
  {
    if order == [] then map[]
    else
      var n := |order| - 1;
      assert forall x :: x in order <==> x in order[..n] || x == order[n];
      NodeMap(order[..n])[order[n] := n]
  }

  /** On a duplicate-free order the map is the inverse of indexing. */
  lemma NodeMapInverts<T(!new)>(order: seq<T>, i: nat)
    requires Distinct(order) && i < |order|
    ensures order[i] in NodeMap(order) && NodeMap(order)[order[i]] == i
  {
  }

  /** Known categories come before all other nodes in `KnownFirst`. */
  lemma KnownBeforeOthers<T(!new)>(known: seq<T>, nodes: seq<T>)
    requires Distinct(known) && Distinct(nodes)
    ensures var order := KnownFirst(known, nodes);
      forall i, j :: 0 <= i < j < |order| && order[j] in known ==> order[i] in known
  {
    KnownFirstOrder(known, nodes);
  }

  /** Known categories keep the known list's order in `KnownFirst`. */
  lemma KnownInListOrder<T(!new)>(known: seq<T>, nodes: seq<T>)
    requires Distinct(known) && Distinct(nodes)
    ensures var order := KnownFirst(known, nodes);
      forall i, j :: 0 <= i < j < |order| && order[i] in known && order[j] in known ==>
        IndexOf(known, order[i]) < IndexOf(known, order[j])
  {
    var order := KnownFirst(known, nodes);
    var k := |KnownPresent(known, nodes)|;
    KnownFirstOrder(known, nodes);
    var head := order[..k];
    forall i, j | 0 <= i < j < |order| && order[i] in known && order[j] in known
      ensures IndexOf(known, order[i]) < IndexOf(known, order[j])
    {
      assert j < k;
      assert head[i] == order[i] && head[j] == order[j];
    }
  }

  /** Where the other nodes sit in `KnownFirst`: after the known prefix, in
      the order of `nodes`. */
  lemma OthersAfterPrefix<T(!new)>(known: seq<T>, nodes: seq<T>)
    requires Distinct(known) && Distinct(nodes)
    ensures var order, k := KnownFirst(known, nodes), |KnownPresent(known, nodes)|;
      && k <= |order|
      && InOrderOf(order[k..], nodes)
      && forall i :: 0 <= i < |order| && order[i] !in known ==> k <= i
  {
    KnownFirstOrder(known, nodes);
  }

  /** Elements outside `known` that all sit in an ordered suffix of `order`
      are ordered among themselves. */
  lemma SuffixOrder<T>(order: seq<T>, k: nat, known: seq<T>, scan: seq<T>)
    requires k <= |order| && InOrderOf(order[k..], scan)
    requires forall i :: 0 <= i < |order| && order[i] !in known ==> k <= i
    ensures forall i, j :: 0 <= i < j < |order| && order[i] !in known && order[j] !in known ==>
      IndexOf(scan, order[i]) < IndexOf(scan, order[j])
  {
    var tail := order[k..];
    forall i, j | 0 <= i < j < |order| && order[i] !in known && order[j] !in known
      ensures IndexOf(scan, order[i]) < IndexOf(scan, order[j])
    {
      assert tail[i - k] == order[i] && tail[j - k] == order[j];
    }
  }

  /** The other nodes keep the order of `nodes` in `KnownFirst`, hence of any
      scan that `nodes` is in first-seen order of. */
  lemma OthersInScanOrder<T(!new)>(known: seq<T>, nodes: seq<T>, scan: seq<T>)
    requires Distinct(known) && Distinct(nodes) && InOrderOf(nodes, scan)
    ensures var order := KnownFirst(known, nodes);
      forall i, j :: 0 <= i < j < |order| && order[i] !in known && order[j] !in known ==>
        IndexOf(scan, order[i]) < IndexOf(scan, order[j])
  {
    var order := KnownFirst(known, nodes);
    var k := |KnownPresent(known, nodes)|;
    OthersAfterPrefix(known, nodes);
    InOrderTransitive(order[k..], nodes, scan);
    SuffixOrder(order, k, known, scan);
  }

  /** The ordering facts of `KnownFirst` applied to the first occurrences of
      a scan: no repeats, exactly the scanned names, known ones first and in
      the known list's order, the others in first-seen order of the scan. */
  lemma KnownFirstOfScan<T(!new)>(known: seq<T>, scan: seq<T>)
    requires Distinct(known)
    ensures var order := KnownFirst(known, FirstOccurrences(scan));
      && Distinct(order)
      && (forall x :: x in order <==> x in scan)
      && (forall i, j :: 0 <= i < j < |order| && order[j] in known ==> order[i] in known)
      && (forall i, j :: 0 <= i < j < |order| && order[i] in known && order[j] in known ==>
            IndexOf(known, order[i]) < IndexOf(known, order[j]))
      && (forall i, j :: 0 <= i < j < |order| && order[i] !in known && order[j] !in known ==>
            IndexOf(scan, order[i]) < IndexOf(scan, order[j]))
  {
    var nodes := FirstOccurrences(scan);
    FirstOccurrencesInOrder(scan);
    KnownFirstOrder(known, nodes);
    KnownBeforeOthers(known, nodes);
    KnownInListOrder(known, nodes);
    OthersInScanOrder(known, nodes, scan);
  }
}
